/** A foreign write that makes an accepted configuration change invalid (internal/gsm/db.go). */
module ConfigExample {
  import opened Common
  import opened Strings
  import opened RadioParams
  import opened RadioConfig
  import opened PresetFile

  lemma SeventyIsFor900()
    ensures ValidC0("70", "900") && !ValidC0("70", "1800")
  {
    C0s();
    Digits2("70");
  }

  /** Channel 70 is accepted for the 900 band; meanwhile the table has been set up for the 1800 band. */
  method BandChangedMeanwhile() returns (ok: bool, table: ConfigTable)
    ensures ok && !Valid(Rebuilt(table.rows))
  {
    DefaultValid1();
    DefaultValid2();
    SeventyIsFor900();
    ok, table := ForeignWriteBreaksValidity(DefaultPresets()[1].params, DefaultPresets()[2].params, "70");
  }
}
