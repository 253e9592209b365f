/** The journal file itself, written and scanned in place. */
module JournalFile {
  import opened Base
  import opened JournalFormat
  import Proofs = JournalProofs

  class Journal {
    const codec: Codec
    var bytes: seq<byte>
    var synced: nat
    var nextOpId: nat

    constructor Create(codec: Codec)
      requires Writable(codec, Header(JOURNAL_VERSION))
      ensures this.codec == codec && nextOpId == 1
      ensures bytes == Frame(codec, Header(JOURNAL_VERSION)) && synced == |bytes|
    {
      this.codec := codec;
      bytes, synced, nextOpId := [], 0, 1;
      new;
      WriteFrame(Header(JOURNAL_VERSION), true);
    }

    /** Length, checksum and payload in one write; op frames reach the disk before the call returns. */
    method WriteFrame(record: JournalRecord, sync: bool)
      requires Writable(codec, record)
      modifies `bytes, `synced
      ensures bytes == old(bytes) + Frame(codec, record)
      ensures synced == if sync then |bytes| else old(synced)
    {
      var payload := codec.encode(record);
      var frame := ToLe(|payload|, 4);
      frame := frame + ToLe(codec.checksum(payload), 8);
      frame := frame + payload;
      bytes := bytes + frame;
      if sync { synced := |bytes|; }
    }

    method AppendOp(request: nat) returns (opId: nat)
      requires Writable(codec, Op(nextOpId, request))
      modifies this
      ensures opId == old(nextOpId) && nextOpId == opId + 1
      ensures bytes == old(bytes) + Frame(codec, Op(opId, request)) && synced == |bytes|
    {
      opId := nextOpId;
      nextOpId := nextOpId + 1;
      WriteFrame(Op(opId, request), true);
    }

    /** Scans the whole file; a torn tail is cut and the cut is synced. */
    method Load() returns (l: Load)
      modifies `bytes, `synced
      ensures l == LoadBytes(codec, old(bytes))
      ensures match l
              case Loaded(_, kept) =>
                && bytes == old(bytes)[..kept]
                && synced == if kept < |old(bytes)| then kept else old(synced)
              case Panicked =>
                bytes <= old(bytes)
    {
      var records: seq<JournalRecord> := [];
      var offset := 0;
      var tornAt: Option<nat> := None;
      assert records + Scan(codec, bytes, 0).0 == Scan(codec, bytes, 0).0;
      while offset < |bytes| && tornAt.None?
        invariant offset <= |bytes| && bytes == old(bytes) && synced == old(synced)
        invariant tornAt.None? ==>
                    Scan(codec, bytes, 0) == (records + Scan(codec, bytes, offset).0, Scan(codec, bytes, offset).1)
        invariant tornAt.Some? ==> tornAt.value < |bytes| && Scan(codec, bytes, 0) == (records, TornAt(tornAt.value))
        decreases |bytes| - offset, tornAt.None?
      {
        match ParseFrame(codec, bytes, offset) {
          case Parsed(record, next) =>
            Proofs.ScanParsed(codec, bytes, offset);
            assert records + ([record] + Scan(codec, bytes, next).0)
                == (records + [record]) + Scan(codec, bytes, next).0;
            records := records + [record];
            offset := next;
          case Torn =>
            assert records + [] == records;
            tornAt := Some(offset);
          case CorruptLen(_) => return Panicked;
          case Corrupt(next) =>
            var damaged := Probe(next);
            if damaged { return Panicked; }
            assert records + [] == records;
            tornAt := Some(offset);
        }
      }
      assert tornAt.None? ==> records + [] == records;
      var kept := |bytes|;
      if tornAt.Some? {
        kept := tornAt.value;
        bytes := bytes[..kept];
        synced := |bytes|;
      }
      if records != [] && records[0] != Header(JOURNAL_VERSION) { return Panicked; }
      return Loaded(records, kept);
    }

    /** Looks past a bad frame for evidence that the file kept growing after the damage. */
    method Probe(start: nat) returns (damaged: bool)
      requires start <= |bytes|
      ensures damaged == DamageFollowed(codec, bytes, start)
    {
      var probe := start;
      while probe < |bytes|
        invariant probe <= |bytes| && DamageFollowed(codec, bytes, probe) == DamageFollowed(codec, bytes, start)
        decreases |bytes| - probe
      {
        match ParseFrame(codec, bytes, probe) {
          case Parsed(_, _) => return true;
          case CorruptLen(_) => return true;
          case Corrupt(next) => probe := next;
          case Torn => return false;
        }
      }
      return false;
    }
  }
}
