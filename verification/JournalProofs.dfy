/** What a load recovers from any prefix of a log, and when it panics. */
module JournalProofs {
  import opened Base
  import opened JournalFormat

  lemma {:induction false} FrameParts(c: Codec, r: JournalRecord)
    requires Writable(c, r)
    ensures var f := Frame(c, r);
            && FromLe(f[..4]) == |c.encode(r)|
            && FromLe(f[4..12]) == c.checksum(c.encode(r))
            && f[12..] == c.encode(r)
  {
    var payload := c.encode(r);
    WidthsHoldWords();
    LeRoundTrip(|payload|, 4);
    LeRoundTrip(c.checksum(payload), 8);
    assert Frame(c, r)[..4] == ToLe(|payload|, 4);
    assert Frame(c, r)[4..12] == ToLe(c.checksum(payload), 8);
  }

  /** A whole frame parses back to its record, whatever follows it. */
  lemma {:induction false} WholeFrameParses(c: Codec, r: JournalRecord, bytes: seq<byte>, offset: nat)
    requires Lawful(c) && Plausible(c, r)
    requires offset + |Frame(c, r)| <= |bytes| && bytes[offset..offset + |Frame(c, r)|] == Frame(c, r)
    ensures ParseFrame(c, bytes, offset) == Parsed(r, offset + |Frame(c, r)|)
  {
    var f := Frame(c, r);
    var remaining := bytes[offset..];
    assert remaining[..|f|] == f;
    FrameParts(c, r);
    assert remaining[..4] == f[..4];
    assert remaining[4..12] == f[4..12];
    assert remaining[12..|f|] == f[12..];
  }

  /** A frame cut short anywhere reads as torn, never as corruption. */
  lemma {:induction false} CutFrameIsTorn(c: Codec, r: JournalRecord, bytes: seq<byte>, offset: nat)
    requires Plausible(c, r)
    requires offset < |bytes| < offset + |Frame(c, r)|
    requires bytes[offset..] == Frame(c, r)[..|bytes| - offset]
    ensures ParseFrame(c, bytes, offset) == Torn
  {
    var f := Frame(c, r);
    var remaining := bytes[offset..];
    if |remaining| >= FRAME_HEADER_LEN {
      FrameParts(c, r);
      assert remaining[..4] == f[..4];
    }
  }

  /** A frame the writer accepted but whose length field `load` refuses. */
  lemma {:induction false} OversizedFrameIsRefused(c: Codec, r: JournalRecord, bytes: seq<byte>, offset: nat)
    requires Writable(c, r) && !Plausible(c, r)
    requires offset + |Frame(c, r)| <= |bytes| && bytes[offset..offset + |Frame(c, r)|] == Frame(c, r)
    ensures ParseFrame(c, bytes, offset) == CorruptLen(|c.encode(r)|)
  {
    var f := Frame(c, r);
    var remaining := bytes[offset..];
    assert remaining[..|f|] == f;
    FrameParts(c, r);
    assert remaining[..4] == f[..4];
  }

  // ------------------------------------------------------------------
  // Logs and their prefixes
  // ------------------------------------------------------------------

  ghost predicate AllPlausible(c: Codec, log: seq<JournalRecord>) {
    forall i :: 0 <= i < |log| ==> Plausible(c, log[i])
  }

  lemma {:induction false} FramesGrow(c: Codec, log: seq<JournalRecord>, k: nat)
    requires k <= |log|
    ensures Frames(c, log[..k]) <= Frames(c, log)
  {
    if k == |log| {
      assert log[..k] == log;
    } else {
      var init := log[..|log| - 1];
      FramesGrow(c, init, k);
      assert init[..k] == log[..k];
    }
  }

  /** Where the k-th frame of a log sits. */
  lemma {:induction false} FrameAt(c: Codec, log: seq<JournalRecord>, k: nat)
    requires k < |log|
    ensures var start := |Frames(c, log[..k])|;
            var end := start + |Frame(c, log[k])|;
            && end == |Frames(c, log[..k + 1])| <= |Frames(c, log)|
            && Frames(c, log)[start..end] == Frame(c, log[k])
  {
    var upTo := log[..k + 1];
    assert upTo[..k] == log[..k];
    FramesGrow(c, log, k + 1);
    assert Frames(c, upTo) == Frames(c, log[..k]) + Frame(c, log[k]);
  }

  /** How many whole frames of a log fit in its first `n` bytes. */
  function Whole(c: Codec, log: seq<JournalRecord>, n: nat): (m: nat)
    ensures m <= |log|
  {
    if log == [] then 0
    else if |Frames(c, log)| <= n then |log|
    else Whole(c, log[..|log| - 1], n)
  }

  lemma {:induction false} WholeIsMaximal(c: Codec, log: seq<JournalRecord>, n: nat)
    ensures var m := Whole(c, log, n);
            && |Frames(c, log[..m])| <= n
            && (m < |log| ==> n < |Frames(c, log[..m + 1])|)
            && (forall k :: 0 <= k <= |log| && |Frames(c, log[..k])| <= n ==> k <= m)
  {
    var m := Whole(c, log, n);
    if log == [] || |Frames(c, log)| <= n {
      assert log[..|log|] == log;
    } else {
      var init := log[..|log| - 1];
      WholeIsMaximal(c, init, n);
      assert init[..m] == log[..m];
      if m < |init| { assert init[..m + 1] == log[..m + 1]; } else { assert log[..m + 1] == log; }
      assert log[..|log|] == log;
      forall k | 0 <= k <= |log| && |Frames(c, log[..k])| <= n ensures k <= m {
        if k < |log| { assert init[..k] == log[..k]; }
      }
    }
  }

  lemma {:induction false} ScanParsed(c: Codec, bytes: seq<byte>, offset: nat)
    requires offset < |bytes| && ParseFrame(c, bytes, offset).Parsed?
    ensures var p := ParseFrame(c, bytes, offset);
            Scan(c, bytes, offset) == ([p.record] + Scan(c, bytes, p.next).0, Scan(c, bytes, p.next).1)
  {
  }

  /** The bytes left behind the last whole frame read as torn. */
  lemma {:induction false} TailIsTorn(c: Codec, log: seq<JournalRecord>, bytes: seq<byte>)
    requires AllPlausible(c, log) && bytes <= Frames(c, log)
    ensures var cut := |Frames(c, log[..Whole(c, log, |bytes|)])|;
            cut <= |bytes| && Scan(c, bytes, cut) == ([], if cut == |bytes| then Clean else TornAt(cut))
  {
    var m := Whole(c, log, |bytes|);
    WholeIsMaximal(c, log, |bytes|);
    var cut := |Frames(c, log[..m])|;
    if cut < |bytes| {
      assert log[..|log|] == log;
      assert m < |log|;
      FrameAt(c, log, m);
      assert bytes[cut..] == Frames(c, log)[cut..|bytes|];
      assert bytes[cut..] == Frame(c, log[m])[..|bytes| - cut];
      CutFrameIsTorn(c, log[m], bytes, cut);
    }
  }

  lemma {:induction false} FrameInPrefix(c: Codec, log: seq<JournalRecord>, bytes: seq<byte>, k: nat)
    requires Lawful(c) && AllPlausible(c, log)
    requires bytes <= Frames(c, log) && k < |log| && |Frames(c, log[..k + 1])| <= |bytes|
    ensures |Frames(c, log[..k])| < |bytes|
    ensures ParseFrame(c, bytes, |Frames(c, log[..k])|) == Parsed(log[k], |Frames(c, log[..k + 1])|)
  {
    FrameAt(c, log, k);
    var start, end := |Frames(c, log[..k])|, |Frames(c, log[..k + 1])|;
    assert bytes[start..end] == Frames(c, log)[start..end];
    WholeFrameParses(c, log[k], bytes, start);
  }

  /** If the first record parses at `offset` and the rest follow it, all of them are read from `offset`. */
  lemma {:induction false} ScanJoins(c: Codec, bytes: seq<byte>, offset: nat, records: seq<JournalRecord>, stop: Stop)
    requires records != [] && offset < |bytes|
    requires ParseFrame(c, bytes, offset).Parsed? && ParseFrame(c, bytes, offset).record == records[0]
    requires Scan(c, bytes, ParseFrame(c, bytes, offset).next) == (records[1..], stop)
    ensures Scan(c, bytes, offset) == (records, stop)
  {
    ScanParsed(c, bytes, offset);
    assert records == [records[0]] + records[1..];
  }

  /** From frame `k` on, a file that holds the frames up to `m` reads them and then stops as it does at `m`. */
  lemma {:induction false} ScanPrefix(c: Codec, log: seq<JournalRecord>, bytes: seq<byte>, k: nat, m: nat, stop: Stop)
    requires Lawful(c) && AllPlausible(c, log)
    requires bytes <= Frames(c, log)
    requires k <= m <= |log| && |Frames(c, log[..m])| <= |bytes|
    requires Scan(c, bytes, |Frames(c, log[..m])|) == ([], stop)
    ensures |Frames(c, log[..k])| <= |bytes|
    ensures Scan(c, bytes, |Frames(c, log[..k])|) == (log[k..m], stop)
    decreases m - k
  {
    if k < m {
      ScanPrefix(c, log, bytes, k + 1, m, stop);
      FrameInPrefix(c, log, bytes, k);
      assert log[k..m][1..] == log[k + 1..m];
      ScanJoins(c, bytes, |Frames(c, log[..k])|, log[k..m], stop);
    } else {
      assert log[k..m] == [];
    }
  }

  /**
    Load after a crash at any byte: exactly the records whose whole frame
    survived, the file cut at that frame boundary, and no corruption panic.
   */
  lemma {:induction false} LoadPrefix(c: Codec, log: seq<JournalRecord>, bytes: seq<byte>)
    requires Lawful(c) && AllPlausible(c, log)
    requires log != [] && log[0] == Header(JOURNAL_VERSION)
    requires bytes <= Frames(c, log)
    ensures var m := Whole(c, log, |bytes|);
            && LoadBytes(c, bytes) == Loaded(log[..m], |Frames(c, log[..m])|)
            && |Frames(c, log[..m])| <= |bytes|
            && bytes[..|Frames(c, log[..m])|] == Frames(c, log[..m])
  {
    var m := Whole(c, log, |bytes|);
    TailIsTorn(c, log, bytes);
    ScanPrefix(c, log, bytes, 0, m, Scan(c, bytes, |Frames(c, log[..m])|).1);
    FramesGrow(c, log, m);
    assert log[..0] == [];
    assert log[0..m] == log[..m];
    assert bytes[..|Frames(c, log[..m])|] == Frames(c, log)[..|Frames(c, log[..m])|];
  }

  // ------------------------------------------------------------------
  // Any file at all
  // ------------------------------------------------------------------

  /** Parsing looks at nothing behind the frame. */
  lemma {:induction false} ParseCut(c: Codec, bytes: seq<byte>, offset: nat, kept: nat)
    requires offset <= kept <= |bytes|
    requires ParseFrame(c, bytes, offset).Parsed? && ParseFrame(c, bytes, offset).next <= kept
    ensures ParseFrame(c, bytes[..kept], offset) == ParseFrame(c, bytes, offset)
  {
    var all, part := bytes[offset..], bytes[..kept][offset..];
    assert part == all[..kept - offset];
    var len := FromLe(all[..4]);
    assert part[..4] == all[..4];
    assert part[4..12] == all[4..12];
    assert part[12..12 + len] == all[12..12 + len];
  }

  /** Cutting behind everything that was parsed does not change what was parsed. */
  lemma {:induction false} ScanCut(c: Codec, bytes: seq<byte>, offset: nat, kept: nat)
    requires offset <= kept <= |bytes|
    requires Scan(c, bytes, offset).1 == (if kept == |bytes| then Clean else TornAt(kept))
    ensures Scan(c, bytes[..kept], offset) == (Scan(c, bytes, offset).0, Clean)
    decreases |bytes| - offset
  {
    if kept == |bytes| {
      assert bytes[..kept] == bytes;
    } else if offset < kept {
      var p := ParseFrame(c, bytes, offset);
      assert p.Parsed? && p.next <= kept;
      ScanCut(c, bytes, p.next, kept);
      ParseCut(c, bytes, offset, kept);
      ScanParsed(c, bytes, offset);
      ScanParsed(c, bytes[..kept], offset);
    }
  }

  /** On every file, a load that returns leaves a file the next load reads the same and leaves alone. */
  lemma {:induction false} LoadIsIdempotent(c: Codec, bytes: seq<byte>)
    ensures match LoadBytes(c, bytes)
            case Loaded(records, kept) => LoadBytes(c, bytes[..kept]) == Loaded(records, kept)
            case Panicked => true
  {
    match LoadBytes(c, bytes)
    case Loaded(records, kept) => ScanCut(c, bytes, 0, kept);
    case Panicked =>
  }

  ghost predicate PlausibleFrom(c: Codec, log: seq<JournalRecord>, k: nat) {
    forall i :: k <= i < |log| ==> Plausible(c, log[i])
  }

  lemma {:induction false} ScanOwnLog(c: Codec, log: seq<JournalRecord>, k: nat)
    requires Lawful(c)
    requires k <= |log|
    requires forall i :: 0 <= i < |log| ==> Writable(c, log[i])
    ensures |Frames(c, log[..k])| <= |Frames(c, log)|
    ensures Scan(c, Frames(c, log), |Frames(c, log[..k])|).1 == if PlausibleFrom(c, log, k) then Clean else Damaged
    decreases |log| - k
  {
    var bytes := Frames(c, log);
    if k == |log| {
      assert log[..k] == log;
    } else {
      FrameAt(c, log, k);
      var start := |Frames(c, log[..k])|;
      if Plausible(c, log[k]) {
        ScanOwnLog(c, log, k + 1);
        WholeFrameParses(c, log[k], bytes, start);
        ScanParsed(c, bytes, start);
        assert PlausibleFrom(c, log, k) <==> PlausibleFrom(c, log, k + 1);
      } else {
        OversizedFrameIsRefused(c, log[k], bytes, start);
      }
    }
  }

  /**
    The writer accepts payloads up to u32::MAX, the reader only up to
    MAX_FRAME_LEN: an undamaged journal loads if and only if every payload in it
    is within the reader's limit.
   */
  lemma {:induction false} OwnLogLoadsIff(c: Codec, log: seq<JournalRecord>)
    requires Lawful(c) && log != [] && log[0] == Header(JOURNAL_VERSION)
    requires forall i :: 0 <= i < |log| ==> Writable(c, log[i])
    ensures LoadBytes(c, Frames(c, log)).Loaded? <==> AllPlausible(c, log)
  {
    assert log[..0] == [];
    ScanOwnLog(c, log, 0);
    assert AllPlausible(c, log) <==> PlausibleFrom(c, log, 0);
    if AllPlausible(c, log) { LoadPrefix(c, log, Frames(c, log)); }
  }
}
