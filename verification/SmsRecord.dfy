/** The decoded short message of internal/parser/sms.go; an empty field is a missing one. */
module SmsRecord {
  import opened Common

  type Text = seq<byte>

  datatype Sms = Sms(time: Text, text: Text, senderNumber: Text, senderImsi: Text, receiverNumber: Text, receiverImsi: Text)

  predicate IsDigit(b: byte) { 48 <= b <= 57 }

  predicate AllDigits(t: Text) { forall i :: 0 <= i < |t| ==> IsDigit(t[i]) }

  const IMSI_PREFIX: Text := [73, 77, 83, 73]

  /** "IMSI" and fifteen digits. */
  predicate IsImsi(t: Text) {
    |t| == 19 && t[..4] == IMSI_PREFIX && AllDigits(t[4..])
  }

  /** An optional plus sign and two to fifteen digits. */
  predicate IsNumber(t: Text) {
    var digits := if t != [] && t[0] == 43 then t[1..] else t;
    2 <= |digits| <= 15 && AllDigits(digits)
  }

  /** parseNoticeParty: what a party's text says about the sender or the receiver. */
  function NoticeParty(s: Sms, value: Text, sender: bool): Sms {
    if IsImsi(value) then if sender then s.(senderImsi := value[4..]) else s.(receiverImsi := value[4..])
    else if !IsNumber(value) then s
    else if sender then s.(senderNumber := value) else s.(receiverNumber := value)
  }

  /** The digits of a party that is an identity, and nothing otherwise. */
  function ImsiDigits(value: Text): Text { if IsImsi(value) then value[4..] else [] }

  /** A party that is a number, and nothing otherwise. */
  function NumberText(value: Text): Text { if IsNumber(value) then value else [] }

  ghost predicate Decimals(t: Text) { forall i :: 0 <= i < |t| ==> 48 <= t[i] <= 57 }

  ghost predicate NamesImsi(value: Text, digits: Text) {
    |digits| == 15 && Decimals(digits) && value == [73, 77, 83, 73] + digits
  }

  ghost predicate NamesNumber(value: Text, digits: Text) {
    2 <= |digits| <= 15 && Decimals(digits) && (value == digits || value == [43] + digits)
  }

  /** An identity is "IMSI" and fifteen digits, a number two to fifteen digits behind an optional plus sign. */
  lemma PartyMeans(value: Text)
    ensures IsImsi(value) <==> exists digits :: NamesImsi(value, digits)
    ensures IsNumber(value) <==> exists digits :: NamesNumber(value, digits)
    ensures forall digits :: NamesImsi(value, digits) ==> ImsiDigits(value) == digits && !IsNumber(value)
  {
    if IsImsi(value) { assert NamesImsi(value, value[4..]); }
    forall digits | NamesImsi(value, digits) ensures IsImsi(value) && value[4..] == digits && !IsNumber(value) {
      assert value[..4] == [73, 77, 83, 73] && value[4..] == digits;
    }
    if IsNumber(value) {
      var digits := if value != [] && value[0] == 43 then value[1..] else value;
      assert NamesNumber(value, digits);
    }
    if digits :| NamesNumber(value, digits) {
      if value == [43] + digits { assert value[1..] == digits; }
    }
  }
}
