/**
  The crash-consistent op journal (crates/orch-simstate/src/journal.rs): frames
  of length, checksum and payload, an append-only file, and a load that cuts a
  torn tail but refuses damage in the middle.
 */
module JournalFormat {
  import opened Base

  type byte = x: int | 0 <= x < 256

  const JOURNAL_VERSION: u32 := 1
  const FRAME_HEADER_LEN: nat := 12
  const MAX_FRAME_LEN: nat := 64 * 1024 * 1024

  /** Service requests are carried whole; only their op id matters to the journal. */
  datatype JournalRecord =
    | Header(version: u32)
    | Applied(opId: nat, digest: u64)
    | Op(opId: nat, request: nat)

  /** The record encoding and the truncated digest, which the journal takes as given. */
  datatype Codec = Codec(encode: JournalRecord -> seq<byte>, decode: seq<byte> -> Option<JournalRecord>,
                         checksum: seq<byte> -> u64)

  ghost predicate Lawful(c: Codec) {
    forall r :: c.decode(c.encode(r)) == Some(r)
  }

  // ------------------------------------------------------------------
  // Little-endian integers
  // ------------------------------------------------------------------

  function Pow256(w: nat): nat { if w == 0 then 1 else 256 * Pow256(w - 1) }

  function ToLe(n: nat, w: nat): (bytes: seq<byte>)
    ensures |bytes| == w
  {
    if w == 0 then [] else [n % 256] + ToLe(n / 256, w - 1)
  }

  function FromLe(bytes: seq<byte>): nat {
    if bytes == [] then 0 else bytes[0] + 256 * FromLe(bytes[1..])
  }

  lemma {:induction false} LeRoundTrip(n: nat, w: nat)
    requires n < Pow256(w)
    ensures FromLe(ToLe(n, w)) == n
  {
    if w == 0 {
    } else {
      LeRoundTrip(n / 256, w - 1);
      assert ToLe(n, w)[1..] == ToLe(n / 256, w - 1);
    }
  }

  lemma {:induction false} WidthsHoldWords()
    ensures Pow256(4) == U32_MAX + 1 && Pow256(8) == U64_MAX + 1
  {
    assert Pow256(2) == 65536;
    assert Pow256(4) == 256 * (256 * Pow256(2));
    assert Pow256(6) == 256 * (256 * Pow256(4));
    assert Pow256(8) == 256 * (256 * Pow256(6));
  }

  // ------------------------------------------------------------------
  // Frames
  // ------------------------------------------------------------------

  /** `write_frame` panics on a payload whose length does not fit its u32 field. */
  predicate Writable(c: Codec, r: JournalRecord) { |c.encode(r)| <= U32_MAX }

  /** Payloads that `load` will accept back. */
  predicate Plausible(c: Codec, r: JournalRecord) { |c.encode(r)| <= MAX_FRAME_LEN }

  function Frame(c: Codec, r: JournalRecord): (f: seq<byte>)
    ensures |f| == FRAME_HEADER_LEN + |c.encode(r)|
  {
    var payload := c.encode(r);
    ToLe(|payload|, 4) + ToLe(c.checksum(payload), 8) + payload
  }

  function Frames(c: Codec, log: seq<JournalRecord>): seq<byte> {
    if log == [] then [] else Frames(c, log[..|log| - 1]) + Frame(c, log[|log| - 1])
  }

  datatype FrameParse =
    | Parsed(record: JournalRecord, next: nat)
    | Torn
    | CorruptLen(len: nat)
    | Corrupt(next: nat)

  function ParseFrame(c: Codec, bytes: seq<byte>, offset: nat): (p: FrameParse)
    requires offset <= |bytes|
    ensures p.Parsed? || p.Corrupt? ==> offset + FRAME_HEADER_LEN <= p.next <= |bytes|
  {
    var remaining := bytes[offset..];
    if |remaining| < FRAME_HEADER_LEN then Torn
    else
      var len := FromLe(remaining[..4]);
      var checksum := FromLe(remaining[4..12]);
      if len > MAX_FRAME_LEN then CorruptLen(len)
      else if |remaining| < FRAME_HEADER_LEN + len then Torn
      else
        var payload := remaining[FRAME_HEADER_LEN..FRAME_HEADER_LEN + len];
        var next := offset + FRAME_HEADER_LEN + len;
        if c.checksum(payload) != checksum then Corrupt(next)
        else
          match c.decode(payload)
          case Some(record) => Parsed(record, next)
          case None => Corrupt(next)
  }

  /** Past a bad frame: does anything show that the file kept growing? */
  predicate DamageFollowed(c: Codec, bytes: seq<byte>, probe: nat)
    requires probe <= |bytes|
    decreases |bytes| - probe
  {
    probe < |bytes| &&
    match ParseFrame(c, bytes, probe)
    case Parsed(_, _) => true
    case CorruptLen(_) => true
    case Corrupt(next) => DamageFollowed(c, bytes, next)
    case Torn => false
  }

  datatype Stop = Clean | TornAt(offset: nat) | Damaged

  /** The records read from `offset` on, and why reading stopped. */
  function Scan(c: Codec, bytes: seq<byte>, offset: nat): (r: (seq<JournalRecord>, Stop))
    requires offset <= |bytes|
    ensures r.1.TornAt? ==> offset <= r.1.offset < |bytes|
    decreases |bytes| - offset
  {
    if offset == |bytes| then ([], Clean)
    else
      match ParseFrame(c, bytes, offset)
      case Parsed(record, next) =>
        var (rest, stop) := Scan(c, bytes, next);
        ([record] + rest, stop)
      case Torn => ([], TornAt(offset))
      case CorruptLen(_) => ([], Damaged)
      case Corrupt(next) => ([], if DamageFollowed(c, bytes, next) then Damaged else TornAt(offset))
  }

  datatype Load = Loaded(records: seq<JournalRecord>, kept: nat) | Panicked

  /** What `load` returns and how many bytes it leaves in the file. */
  function LoadBytes(c: Codec, bytes: seq<byte>): (l: Load)
    ensures l.Loaded? ==> l.kept <= |bytes|
  {
    var (records, stop) := Scan(c, bytes, 0);
    if stop == Damaged then Panicked
    else if records != [] && records[0] != Header(JOURNAL_VERSION) then Panicked
    else Loaded(records, if stop == Clean then |bytes| else stop.offset)
  }
}
