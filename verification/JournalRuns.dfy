/** Whole runs of appends, crashes, loads and reopenings. */
module JournalRuns {
  import opened Base
  import opened JournalFormat
  import opened JournalProofs

  /**
    `file` is what the disk holds, of which `synced` bytes survive any crash;
    `intent` is the log the file is a byte prefix of; `acked` are the ops whose
    append returned. After a crash nothing is appended before a load.
   */
  datatype Disk = Disk(file: seq<byte>, synced: nat, crashed: bool, nextOpId: nat,
                       intent: seq<JournalRecord>, acked: seq<JournalRecord>)

  datatype Event =
    | AppendOp(request: nat)
    | AppendAdvisory(record: JournalRecord)
    | Crash(keep: nat)
    | CrashInAppend(record: JournalRecord, written: nat, keep: nat)
    | Reload

  function Created(c: Codec): Disk {
    Disk(Frames(c, [Header(JOURNAL_VERSION)]), |Frames(c, [Header(JOURNAL_VERSION)])|, false, 1,
         [Header(JOURNAL_VERSION)], [])
  }

  function OpIdOf(r: JournalRecord): nat {
    match r
    case Header(_) => 0
    case Applied(id, _) => id
    case Op(id, _) => id
  }

  function MaxOpId(records: seq<JournalRecord>): nat {
    if records == [] then 0 else Max(MaxOpId(records[..|records| - 1]), OpIdOf(records[|records| - 1]))
  }

  lemma {:induction false} MaxOpIdBounds(records: seq<JournalRecord>)
    ensures forall i :: 0 <= i < |records| ==> OpIdOf(records[i]) <= MaxOpId(records)
  {
    if records == [] {
    } else {
      MaxOpIdBounds(records[..|records| - 1]);
    }
  }

  predicate Enabled(c: Codec, d: Disk, e: Event) {
    match e
    case AppendOp(request) => !d.crashed && Plausible(c, Op(d.nextOpId, request))
    case AppendAdvisory(r) => !d.crashed && r.Applied? && Plausible(c, r)
    case Crash(keep) => d.synced <= keep <= |d.file|
    case CrashInAppend(r, written, keep) =>
      && !d.crashed && Plausible(c, r)
      && (r.Op? ==> r.opId == d.nextOpId)
      && written <= |Frame(c, r)| && d.synced <= keep <= |d.file| + written
    case Reload => true
  }

  /**
    A load that panics is left as no change: under the invariant below none does.
    (The code notices a bad header only after it has cut off a torn tail.)
   */
  function Next(c: Codec, d: Disk, e: Event): Disk
    requires Enabled(c, d, e)
  {
    match e
    case AppendOp(request) =>
      var r := Op(d.nextOpId, request);
      var file := d.file + Frame(c, r);
      d.(file := file, synced := |file|, nextOpId := d.nextOpId + 1, intent := d.intent + [r], acked := d.acked + [r])
    case AppendAdvisory(r) => d.(file := d.file + Frame(c, r), intent := d.intent + [r])
    case Crash(keep) => d.(file := d.file[..keep], crashed := true)
    case CrashInAppend(r, written, keep) =>
      d.(file := (d.file + Frame(c, r)[..written])[..keep], crashed := true, intent := d.intent + [r])
    case Reload =>
      match LoadBytes(c, d.file)
      case Panicked => d
      case Loaded(records, kept) =>
        d.(file := d.file[..kept],
           synced := if kept < |d.file| then kept else d.synced,
           crashed := false, nextOpId := MaxOpId(records) + 1, intent := records)
  }

  /** The op was appended, and its whole frame lies in the synced part. */
  ghost predicate Durable(c: Codec, d: Disk, r: JournalRecord) {
    exists j :: 0 <= j < |d.intent| && d.intent[j] == r && |Frames(c, d.intent[..j + 1])| <= d.synced
  }

  ghost predicate OpsAscend(log: seq<JournalRecord>) {
    forall i, j :: 0 <= i < j < |log| && log[i].Op? && log[j].Op? ==> log[i].opId < log[j].opId
  }

  ghost predicate Inv(c: Codec, d: Disk) {
    && d.intent != [] && d.intent[0] == Header(JOURNAL_VERSION)
    && AllPlausible(c, d.intent)
    && d.file <= Frames(c, d.intent)
    && (!d.crashed ==> d.file == Frames(c, d.intent))
    && |Frames(c, d.intent[..1])| <= d.synced <= |d.file|
    && (forall i {:trigger Durable(c, d, d.acked[i])} :: 0 <= i < |d.acked| ==> Durable(c, d, d.acked[i]))
    && OpsAscend(d.intent) && OpsAscend(d.acked)
    && (forall i :: 0 <= i < |d.acked| ==> d.acked[i].Op?)
    && (!d.crashed ==> forall i :: 0 <= i < |d.intent| && d.intent[i].Op? ==> d.intent[i].opId < d.nextOpId)
  }

  lemma {:induction false} FramesAppend(c: Codec, log: seq<JournalRecord>, r: JournalRecord)
    ensures Frames(c, log + [r]) == Frames(c, log) + Frame(c, r)
  {
    assert (log + [r])[..|log|] == log;
  }

  /** Growing the log and keeping the synced bytes keeps every durable op durable. */
  lemma {:induction false} DurableGrows(c: Codec, d: Disk, e: Disk, r: JournalRecord)
    requires Durable(c, d, r) && d.intent <= e.intent && d.synced <= e.synced
    ensures Durable(c, e, r)
  {
    var j :| 0 <= j < |d.intent| && d.intent[j] == r && |Frames(c, d.intent[..j + 1])| <= d.synced;
    assert e.intent[..j + 1] == d.intent[..j + 1];
  }

  lemma {:induction false} DurableIsListed(c: Codec, d: Disk, r: JournalRecord)
    requires Durable(c, d, r)
    ensures r in d.intent
  {
  }

  lemma {:induction false} AscendAppend(log: seq<JournalRecord>, r: JournalRecord, bound: nat)
    requires OpsAscend(log)
    requires forall i :: 0 <= i < |log| && log[i].Op? ==> log[i].opId < bound
    requires r.Op? ==> r.opId == bound
    ensures OpsAscend(log + [r])
  {
  }

  lemma {:induction false} AckedBelowNext(c: Codec, d: Disk)
    requires Inv(c, d) && !d.crashed
    ensures forall i :: 0 <= i < |d.acked| ==> d.acked[i].opId < d.nextOpId
  {
    forall i | 0 <= i < |d.acked| ensures d.acked[i].opId < d.nextOpId { DurableIsListed(c, d, d.acked[i]); }
  }

  lemma {:induction false} LastIsDurable(c: Codec, d: Disk, r: JournalRecord)
    requires d.intent != [] && d.intent[|d.intent| - 1] == r && |Frames(c, d.intent)| <= d.synced
    ensures Durable(c, d, r)
  {
    assert d.intent[..|d.intent| - 1 + 1] == d.intent;
  }

  lemma {:induction false} AppendOpKeepsInv(c: Codec, d: Disk, e: Event)
    requires Inv(c, d) && Enabled(c, d, e) && e.AppendOp?
    ensures Inv(c, Next(c, d, e))
  {
    var n := Next(c, d, e);
    var r := Op(d.nextOpId, e.request);
    FramesAppend(c, d.intent, r);
    AscendAppend(d.intent, r, d.nextOpId);
    AckedBelowNext(c, d);
    AscendAppend(d.acked, r, d.nextOpId);
    LastIsDurable(c, n, r);
    forall i | 0 <= i < |d.acked| ensures Durable(c, n, d.acked[i]) { DurableGrows(c, d, n, d.acked[i]); }
    assert n.intent[..1] == d.intent[..1];
  }

  lemma {:induction false} AppendAdvisoryKeepsInv(c: Codec, d: Disk, e: Event)
    requires Inv(c, d) && Enabled(c, d, e) && e.AppendAdvisory?
    ensures Inv(c, Next(c, d, e))
  {
    var n := Next(c, d, e);
    FramesAppend(c, d.intent, e.record);
    AscendAppend(d.intent, e.record, d.nextOpId);
    forall i | 0 <= i < |d.acked| ensures Durable(c, n, d.acked[i]) { DurableGrows(c, d, n, d.acked[i]); }
    assert n.intent[..1] == d.intent[..1];
  }

  lemma {:induction false} CrashKeepsInv(c: Codec, d: Disk, e: Event)
    requires Inv(c, d) && Enabled(c, d, e) && (e.Crash? || e.CrashInAppend?)
    ensures Inv(c, Next(c, d, e))
  {
    var n := Next(c, d, e);
    if e.CrashInAppend? {
      FramesAppend(c, d.intent, e.record);
      AscendAppend(d.intent, e.record, d.nextOpId);
    }
    assert n.intent[..1] == d.intent[..1];
    forall i | 0 <= i < |d.acked| ensures Durable(c, n, d.acked[i]) { DurableGrows(c, d, n, d.acked[i]); }
  }

  lemma {:induction false} FramesMonotone(c: Codec, log: seq<JournalRecord>, k: nat, m: nat)
    requires k <= m <= |log|
    ensures |Frames(c, log[..k])| <= |Frames(c, log[..m])|
  {
    FramesGrow(c, log[..m], k);
    assert log[..m][..k] == log[..k];
  }

  lemma {:induction false} WholeCounts(c: Codec, log: seq<JournalRecord>, n: nat, k: nat)
    requires k <= |log| && |Frames(c, log[..k])| <= n
    ensures k <= Whole(c, log, n)
  {
    WholeIsMaximal(c, log, n);
  }

  lemma {:induction false} SurvivesAt(c: Codec, d: Disk, m: nat, j: nat)
    requires d.synced <= |d.file| && m == Whole(c, d.intent, |d.file|)
    requires j < |d.intent| && |Frames(c, d.intent[..j + 1])| <= d.synced
    ensures j < m && |Frames(c, d.intent[..j + 1])| <= |Frames(c, d.intent[..m])|
  {
    WholeCounts(c, d.intent, |d.file|, j + 1);
    FramesMonotone(c, d.intent, j + 1, m);
  }

  /** An op acknowledged before the crash is among the surviving frames and stays durable after the reload. */
  lemma {:induction false} AckedSurvives(c: Codec, d: Disk, m: nat, n: Disk, r: JournalRecord)
    requires d.synced <= |d.file| && m == Whole(c, d.intent, |d.file|)
    requires n.intent == d.intent[..m] && (n.synced == d.synced || n.synced == |Frames(c, d.intent[..m])|)
    requires Durable(c, d, r)
    ensures Durable(c, n, r) && r in d.intent[..m]
  {
    var j :| 0 <= j < |d.intent| && d.intent[j] == r && |Frames(c, d.intent[..j + 1])| <= d.synced;
    SurvivesAt(c, d, m, j);
    assert n.intent[j] == r && n.intent[..j + 1] == d.intent[..j + 1];
  }

  /** What a load of the file yields, and that loading again cuts nothing more. */
  lemma {:induction false} ReloadReads(c: Codec, d: Disk)
    requires Lawful(c) && Inv(c, d)
    ensures var m := Whole(c, d.intent, |d.file|);
            && 1 <= m <= |d.intent|
            && LoadBytes(c, d.file) == Loaded(d.intent[..m], |Frames(c, d.intent[..m])|)
            && |Frames(c, d.intent[..m])| <= |d.file|
            && d.file[..|Frames(c, d.intent[..m])|] == Frames(c, d.intent[..m])
            && LoadBytes(c, Frames(c, d.intent[..m])) == Loaded(d.intent[..m], |Frames(c, d.intent[..m])|)
  {
    LoadPrefix(c, d.intent, d.file);
    LoadIsIdempotent(c, d.file);
    WholeIsMaximal(c, d.intent, |d.file|);
  }

  lemma {:induction false} ReloadKeepsInv(c: Codec, d: Disk, m: nat, n: Disk)
    requires Lawful(c) && Inv(c, d) && m == Whole(c, d.intent, |d.file|) && 1 <= m <= |d.intent|
    requires |Frames(c, d.intent[..m])| <= |d.file|
    requires n == d.(file := Frames(c, d.intent[..m]),
                     synced := if |Frames(c, d.intent[..m])| < |d.file| then |Frames(c, d.intent[..m])| else d.synced,
                     crashed := false, nextOpId := MaxOpId(d.intent[..m]) + 1, intent := d.intent[..m])
    ensures Inv(c, n) && forall i :: 0 <= i < |d.acked| ==> d.acked[i] in d.intent[..m]
  {
    MaxOpIdBounds(d.intent[..m]);
    forall i | 0 <= i < |d.acked| ensures Durable(c, n, d.acked[i]) && d.acked[i] in d.intent[..m] {
      AckedSurvives(c, d, m, n, d.acked[i]);
    }
    FramesGrow(c, d.intent[..m], 1);
    assert n.intent[..1] == d.intent[..1];
  }

  /** Load returns the surviving records, keeps every acknowledged op, and leaves nothing for a second load to cut. */
  lemma {:induction false} ReloadRecovers(c: Codec, d: Disk)
    requires Lawful(c) && Inv(c, d)
    ensures var m := Whole(c, d.intent, |d.file|);
            && LoadBytes(c, d.file) == Loaded(d.intent[..m], |Frames(c, d.intent[..m])|)
            && (forall i :: 0 <= i < |d.acked| ==> d.acked[i] in d.intent[..m])
            && Next(c, d, Reload).file == Frames(c, d.intent[..m])
            && Inv(c, Next(c, d, Reload))
            && LoadBytes(c, Next(c, d, Reload).file) == Loaded(d.intent[..m], |Next(c, d, Reload).file|)
  {
    ReloadReads(c, d);
    ReloadKeepsInv(c, d, Whole(c, d.intent, |d.file|), Next(c, d, Reload));
  }

  lemma {:induction false} StepKeepsInv(c: Codec, d: Disk, e: Event)
    requires Lawful(c) && Inv(c, d) && Enabled(c, d, e)
    ensures Inv(c, Next(c, d, e))
  {
    match e
    case AppendOp(_) => AppendOpKeepsInv(c, d, e);
    case AppendAdvisory(_) => AppendAdvisoryKeepsInv(c, d, e);
    case Crash(_) => CrashKeepsInv(c, d, e);
    case CrashInAppend(_, _, _) => CrashKeepsInv(c, d, e);
    case Reload => ReloadRecovers(c, d);
  }

  function Run(c: Codec, d: Disk, events: seq<Event>): Option<Disk> {
    if events == [] then Some(d)
    else
      match Run(c, d, events[..|events| - 1])
      case None => None
      case Some(n) =>
        if Enabled(c, n, events[|events| - 1]) then Some(Next(c, n, events[|events| - 1])) else None
  }

  lemma {:induction false} CreatedInv(c: Codec)
    requires Plausible(c, Header(JOURNAL_VERSION))
    ensures Inv(c, Created(c))
  {
    var d := Created(c);
    assert d.intent[..1] == d.intent;
  }

  /**
    Crash durability: after any run of appends, crashes and reloads, a load
    succeeds, returns exactly the records whose whole frame is in the file, in
    order, includes every op whose append returned, cuts the file there, and a
    second load cuts nothing. Acknowledged op ids never repeat.
   */
  lemma {:induction false} CrashDurability(c: Codec, events: seq<Event>)
    requires Lawful(c) && Plausible(c, Header(JOURNAL_VERSION))
    ensures match Run(c, Created(c), events)
            case None => true
            case Some(d) =>
              var m := Whole(c, d.intent, |d.file|);
              && Inv(c, d)
              && LoadBytes(c, d.file) == Loaded(d.intent[..m], |Frames(c, d.intent[..m])|)
              && (forall i :: 0 <= i < |d.acked| ==> d.acked[i] in d.intent[..m])
              && LoadBytes(c, Next(c, d, Reload).file) == Loaded(d.intent[..m], |Next(c, d, Reload).file|)
  {
    if events == [] {
      CreatedInv(c);
    } else {
      var init := events[..|events| - 1];
      CrashDurability(c, init);
      match Run(c, Created(c), init)
      case None =>
      case Some(n) =>
        if Enabled(c, n, events[|events| - 1]) { StepKeepsInv(c, n, events[|events| - 1]); }
    }
    match Run(c, Created(c), events)
    case None =>
    case Some(d) => ReloadRecovers(c, d);
  }
}
