/**
 * The vocabulary of the session-scoped reader (internal/gsm/sms_session.go):
 * cursors into append-only files, and the calls at which others may act or fail.
 *
 * The reader is modelled call by call. Before each call the environment runs
 * `env(p)`, an arbitrary list of collector steps, and the call fails if
 * `fails(p)`: both are parameters, so every statement holds for every
 * interleaving with the collector and for every pattern of I/O errors.
 */
module SmsCursor {
  import opened Common
  import opened LogFiles

  const ANCHOR_BYTES := 256

  // ---- Cursors ---------------------------------------------------------------

  datatype Cursor = Cursor(id: nat, offset: nat, anchor: seq<byte>)

  /** smsMark: identity, size and the last bytes of an open file. */
  function Mark(d: Disk, id: nat): Cursor
    requires id < |d.files|
  {
    var size := |d.files[id]|;
    Cursor(id, size, d.files[id][size - Min(size, ANCHOR_BYTES)..])
  }

  /** smsCursor.valid, asked of the open file `id`. */
  predicate ValidIn(d: Disk, id: nat, c: Cursor)
    requires id < |d.files|
  {
    && id == c.id
    && |c.anchor| <= c.offset <= |d.files[id]|
    && d.files[id][c.offset - |c.anchor|..c.offset] == c.anchor
  }

  /** The cursor was marked in this disk or in an earlier state of it. */
  predicate Sound(d: Disk, c: Cursor) {
    && c.id < |d.files|
    && c.offset <= |d.files[c.id]|
    && c.anchor == d.files[c.id][c.offset - Min(c.offset, ANCHOR_BYTES)..c.offset]
  }

  ghost function Pos(d: Disk, c: Cursor): nat
    requires c.id < |d.files|
  {
    Base(d, c.id) + c.offset
  }

  predicate StartsLine(c: Cursor) {
    c.anchor == [] || c.anchor[|c.anchor| - 1] == NL
  }

  /** The byte in front of the cursor, if there is one, ends a line. */
  predicate BeginsLine(d: Disk, c: Cursor)
    requires c.id < |d.files| && c.offset <= |d.files[c.id]|
  {
    c.offset == 0 || d.files[c.id][c.offset - 1] == NL
  }

  /** The anchor alone tells whether the session begins with a whole line. */
  lemma StartsLineMeans(d: Disk, c: Cursor)
    requires Sound(d, c)
    ensures StartsLine(c) <==> BeginsLine(d, c)
  {
    if c.offset > 0 {
      assert c.anchor[|c.anchor| - 1] == d.files[c.id][c.offset - 1];
    }
  }

  /** A mark taken of a file is a sound cursor at its end. */
  lemma MarkMeans(d: Disk, id: nat)
    requires id < |d.files|
    ensures Sound(d, Mark(d, id)) && Mark(d, id).id == id && Mark(d, id).offset == |d.files[id]|
  {
  }

  /** Growth of the log keeps a cursor sound and at its place in the stream. */
  lemma SoundStable(d: Disk, e: Disk, c: Cursor)
    requires Inv(d) && Later(d, e) && Sound(d, c)
    ensures Sound(e, c) && Pos(e, c) == Pos(d, c) <= |Stream(d)| <= |Stream(e)|
  {
    StreamGrows(d, e);
    LaterFile(d, e, c.id);
    FileInStream(d, c.id);
  }

  /** With append-only files the validity test recognises exactly the marked file. */
  lemma ValidIffSameFile(d: Disk, id: nat, c: Cursor)
    requires id < |d.files| && Sound(d, c)
    ensures ValidIn(d, id, c) <==> id == c.id
  {
  }

  // ---- The calls -------------------------------------------------------------

  datatype IoPoint =
    | Open(k: nat) | Stat(k: nat)
    | SeekStart(k: nat) | SeekEnd(k: nat)
    | Previous(k: nat) | Copy(k: nat)
    | Recheck(k: nat) | RecheckStart | RecheckEnd
    | RandomId

  type Environment = IoPoint -> seq<Step>
  type Faults = IoPoint -> bool

  /** No rotation falls between the two opens. */
  predicate Quiet(env: Environment) {
    RenameToBackup !in env(Stat(0)) + env(Open(1))
  }

  /** Nothing is renamed or removed until both files are open. */
  predicate Calm(env: Environment) {
    && RenameToBackup !in env(Open(0)) + env(Stat(0)) + env(Open(1))
    && RemoveBackup !in env(Open(0)) + env(Stat(0)) + env(Open(1))
  }

  /** Nobody else acts at all. */
  ghost predicate Still(env: Environment) { forall p :: env(p) == [] }

  datatype ReadError = Io | Boundary
  datatype Attempt = Ok(data: seq<byte>, truncated: bool) | Failed(error: ReadError)

  /** The files in which the window begins and ends still have a name. */
  ghost predicate Reachable(d: Disk, start: Cursor, end: Option<Cursor>) {
    && Linked(d, start.id)
    && (end.Some? ==> Linked(d, end.value.id) && end.value.id >= start.id)
    && (end.Some? && end.value.id == start.id ==> start.offset <= end.value.offset)
  }

  ghost predicate Linked(d: Disk, id: nat) {
    d.backup == Some(id) || d.current == Some(id)
  }

  lemma {:induction false} RunUnlinked(d: Disk, steps: seq<Step>, id: nat)
    requires Inv(d) && id < |d.files| && !Linked(d, id)
    ensures !Linked(Run(d, steps), id)
    decreases |steps|
  {
    if steps != [] {
      RunUnlinked(Apply(d, steps[0]), steps[1..], id);
    }
  }

  /** A file that has lost both names never gets one back. */
  lemma LinkedBefore(d: Disk, e: Disk, id: nat)
    requires Inv(d) && Later(d, e) && id < |d.files| && Linked(e, id)
    ensures Linked(d, id)
  {
    var steps: seq<Step> :| Run(d, steps) == e;
    if !Linked(d, id) { RunUnlinked(d, steps, id); }
  }

  lemma ReachableBefore(d: Disk, e: Disk, start: Cursor, end: Option<Cursor>)
    requires Inv(d) && Later(d, e) && Sound(d, start) && (end.Some? ==> Sound(d, end.value))
    requires Reachable(e, start, end)
    ensures Reachable(d, start, end)
  {
    LinkedBefore(d, e, start.id);
    if end.Some? { LinkedBefore(d, e, end.value.id); }
  }
}
