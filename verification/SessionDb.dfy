/** The session directory: requests are logged, a worker applies them and publishes serialised snapshots. */
module SessionDb {
  import opened Bytes
  import opened Numbers

  const MAX_LENGTH := 2048
  const RECORD_SIZE := 8

  datatype SessionInfo = SessionInfo(id: uint32, addr: uint32, guid: string)
  datatype Op = Add(info: SessionInfo) | Del(id: uint32)

  function OpId(op: Op): uint32 {
    match op
    case Add(info) => info.id
    case Del(id) => id
  }

  type Directory = map<uint32, SessionInfo>

  /** Inserting keeps an entry that is already there; erasing a missing id does nothing. */
  function ApplyOp(db: Directory, op: Op): Directory {
    match op
    case Add(info) => if info.id in db then db else db[info.id := info]
    case Del(id) => db - {id}
  }

  function Apply(log: seq<Op>): Directory {
    if log == [] then map[] else ApplyOp(Apply(log[..|log| - 1]), log[|log| - 1])
  }

  function ApplyFrom(db: Directory, ops: seq<Op>): Directory
    decreases |ops|
  {
    if ops == [] then db else ApplyFrom(ApplyOp(db, ops[0]), ops[1..])
  }

  /** Applying the pending requests to the directory gives what the whole log describes. */
  lemma {:induction false} PendingCompletes(log: seq<Op>, applied: nat)
    requires applied <= |log|
    ensures ApplyFrom(Apply(log[..applied]), log[applied..]) == Apply(log)
    decreases |log| - applied
  {
    if applied == |log| {
      assert log[..applied] == log;
    } else {
      assert log[..applied + 1][..applied] == log[..applied];
      assert log[applied..][1..] == log[applied + 1..];
      PendingCompletes(log, applied + 1);
    }
  }

  /** The first addition of an id wins until it is deleted; deleting an id leaves all others as they are. */
  lemma FirstAdditionWins(log: seq<Op>, info: SessionInfo, id: uint32)
    ensures info.id in Apply(log) ==> Apply(log + [Op.Add(info)]) == Apply(log)
    ensures id !in Apply(log + [Op.Del(id)])
    ensures forall j :: j in Apply(log) && j != id ==>
              j in Apply(log + [Op.Del(id)]) && Apply(log + [Op.Del(id)])[j] == Apply(log)[j]
  {
    ApplySnoc(log, Op.Add(info));
    ApplySnoc(log, Op.Del(id));
  }

  /** Ids are fresh when added and are not added again once deleted. */
  ghost predicate Ordered(log: seq<Op>) {
    forall i, j :: 0 <= i < j < |log| && log[j].Add? ==> OpId(log[i]) != log[j].info.id
  }

  ghost predicate Added(log: seq<Op>, info: SessionInfo) {
    Add(info) in log
  }

  ghost predicate Deleted(log: seq<Op>, id: uint32) {
    Del(id) in log
  }

  /** For an ordered log the directory holds exactly what was added and not deleted. */
  lemma {:induction false} DirectoryIsAddedNotDeleted(log: seq<Op>, info: SessionInfo)
    requires Ordered(log)
    ensures (info.id in Apply(log) && Apply(log)[info.id] == info) <==> Added(log, info) && !Deleted(log, info.id)
    ensures forall id :: id in Apply(log) ==> Apply(log)[id].id == id
    decreases |log|
  {
    if log != [] {
      var before, op := log[..|log| - 1], log[|log| - 1];
      assert log == before + [op];
      DirectoryIsAddedNotDeleted(before, info);
      if op.Add? {
        forall i | 0 <= i < |before|
          ensures OpId(before[i]) != op.info.id
        {
          assert before[i] == log[i];
        }
        NeverMentioned(before, op.info.id);
      }
    }
  }

  lemma {:induction false} NeverMentioned(log: seq<Op>, id: uint32)
    requires forall i :: 0 <= i < |log| ==> OpId(log[i]) != id
    ensures id !in Apply(log)
  {
    if log != [] {
      assert OpId(log[|log| - 1]) != id;
      NeverMentioned(log[..|log| - 1], id);
    }
  }

  // ----- Snapshots -----

  datatype Record = Record(id: uint32, addr: uint32)

  /** A 32-bit number as `memcpy` lays it out on a little-endian machine. */
  function Le32(x: uint32): (s: seq<byte>)
    ensures |s| == 4
  {
    [x % 256, x / 256 % 256, x / 65536 % 256, x / 16777216]
  }

  function FromLe32(s: seq<byte>): uint32
    requires |s| == 4
  {
    var a: int, b: int, c: int, d: int := s[0], s[1], s[2], s[3];
    a + 256 * b + 65536 * c + 16777216 * d
  }

  lemma Le32RoundTrip(x: uint32)
    ensures FromLe32(Le32(x)) == x
  {
    var a, b, c := x / 256, x / 65536, x / 16777216;
    assert a == 256 * b + a % 256;
    assert b == 256 * c + b % 256;
  }

  function RecordBytes(r: Record): (s: seq<byte>)
    ensures |s| == RECORD_SIZE
  {
    Le32(r.id) + Le32(r.addr)
  }

  function RecordsBytes(rs: seq<Record>): (s: seq<byte>)
    ensures |s| == RECORD_SIZE * |rs|
  {
    if rs == [] then [] else RecordsBytes(rs[..|rs| - 1]) + RecordBytes(rs[|rs| - 1])
  }

  /** A snapshot: the number of records in one byte, then the records. */
  function SnapshotBytes(rs: seq<Record>): seq<byte> {
    [|rs| % 256] + RecordsBytes(rs)
  }

  datatype Option<T> = None | Some(value: T)

  /** How a receiver reads `n` records. */
  function ReadRecords(s: seq<byte>, n: nat): Option<seq<Record>> {
    if n == 0 then (if s == [] then Some([]) else None)
    else if |s| < RECORD_SIZE then None
    else
      var last := |s| - RECORD_SIZE;
      match ReadRecords(s[..last], n - 1)
      case None => None
      case Some(rs) => Some(rs + [Record(FromLe32(s[last..last + 4]), FromLe32(s[last + 4..]))])
  }

  function ReadSnapshot(s: seq<byte>): Option<seq<Record>> {
    if s == [] then None else ReadRecords(s[1..], s[0])
  }

  lemma ReadLastRecord(s: seq<byte>, r: Record, n: nat)
    ensures ReadRecords(s + RecordBytes(r), n + 1)
         == if ReadRecords(s, n).None? then None else Some(ReadRecords(s, n).value + [r])
  {
    var t := s + RecordBytes(r);
    assert t[..|s|] == s;
    assert t[|s|..|s| + 4] == Le32(r.id) && t[|s| + 4..] == Le32(r.addr);
    Le32RoundTrip(r.id);
    Le32RoundTrip(r.addr);
  }

  lemma {:induction false} RecordsRoundTrip(rs: seq<Record>)
    ensures ReadRecords(RecordsBytes(rs), |rs|) == Some(rs)
  {
    if rs != [] {
      var init := rs[..|rs| - 1];
      RecordsRoundTrip(init);
      ReadLastRecord(RecordsBytes(init), rs[|rs| - 1], |init|);
      assert init + [rs[|rs| - 1]] == rs;
    }
  }

  /** A receiver reads a snapshot back exactly when it holds at most 255 records: the count is one byte. */
  lemma SnapshotRoundTrip(rs: seq<Record>)
    ensures ReadSnapshot(SnapshotBytes(rs)) == Some(rs) <==> |rs| <= 255
    ensures |rs| <= 255 <==> |SnapshotBytes(rs)| <= 2048
  {
    hide RecordsBytes, ReadRecords;
    var s := SnapshotBytes(rs);
    assert s[1..] == RecordsBytes(rs);
    if |rs| <= 255 {
      RecordsRoundTrip(rs);
    } else if ReadSnapshot(s).Some? {
      ReadRecordsLength(s[1..], s[0]);
    }
  }

  function Number(s: seq<byte>, at: nat): int
    requires at + 4 <= |s|
  {
    (s[at] as int) + 256 * (s[at + 1] as int) + 65536 * (s[at + 2] as int) + 16777216 * (s[at + 3] as int)
  }

  /** The layout of a snapshot, byte by byte: the count, then for each record its id and its address, each with the
      lowest byte first. */
  lemma SnapshotLayout(rs: seq<Record>, i: nat)
    requires i < |rs| <= 255
    ensures var s := SnapshotBytes(rs);
      && |s| == 1 + 8 * |rs| && s[0] == |rs|
      && Number(s, 1 + 8 * i) == rs[i].id && Number(s, 5 + 8 * i) == rs[i].addr
  {
    hide RecordsBytes;
    RecordAt(rs, i);
    Le32RoundTrip(rs[i].id);
    Le32RoundTrip(rs[i].addr);
    var s, b := SnapshotBytes(rs), RecordsBytes(rs);
    assert s[1..] == b;
    assert b[8 * i..8 * i + 8] == Le32(rs[i].id) + Le32(rs[i].addr);
    var t := s[1 + 8 * i..9 + 8 * i];
    assert t == b[8 * i..8 * i + 8];
    assert Number(t, 0) == rs[i].id && Number(t, 4) == rs[i].addr;
  }

  lemma {:induction false} RecordAt(rs: seq<Record>, i: nat)
    requires i < |rs|
    ensures RecordsBytes(rs)[8 * i..8 * i + 8] == RecordBytes(rs[i])
  {
    var init := rs[..|rs| - 1];
    if i < |init| {
      RecordAt(init, i);
      assert RecordsBytes(rs)[8 * i..8 * i + 8] == RecordsBytes(init)[8 * i..8 * i + 8];
    } else {
      assert RecordsBytes(rs)[8 * i..8 * i + 8] == RecordBytes(rs[i]);
    }
  }

  lemma {:induction false} ReadRecordsLength(s: seq<byte>, n: nat)
    ensures ReadRecords(s, n).Some? ==> |ReadRecords(s, n).value| == n
  {
    if n > 0 && |s| >= RECORD_SIZE {
      ReadRecordsLength(s[..|s| - RECORD_SIZE], n - 1);
    }
  }

  function ToRecord(info: SessionInfo): Record {
    Record(info.id, info.addr)
  }

  /** `rs` lists every entry of the directory exactly once, in some order. */
  ghost predicate Lists(rs: seq<Record>, db: Directory) {
    && |rs| == |db|
    && (forall i, j :: 0 <= i < j < |rs| ==> rs[i].id != rs[j].id)
    && forall i :: 0 <= i < |rs| ==> rs[i].id in db && rs[i] == ToRecord(db[rs[i].id])
  }

  /** `rs` lists the entries taken so far, `rest` holds the ids still to come. */
  ghost predicate Listing(rs: seq<Record>, rest: set<uint32>, db: Directory) {
    && rest <= db.Keys && |rest| + |rs| == |db|
    && (forall i, j :: 0 <= i < j < |rs| ==> rs[i].id != rs[j].id)
    && forall i :: 0 <= i < |rs| ==> rs[i].id in db && rs[i].id !in rest && rs[i] == ToRecord(db[rs[i].id])
  }

  lemma ListingStart(db: Directory)
    ensures Listing([], db.Keys, db)
  {
  }

  lemma ListingStep(rs: seq<Record>, rest: set<uint32>, db: Directory, id: uint32)
    requires Listing(rs, rest, db) && id in rest && db[id].id == id
    ensures Listing(rs + [ToRecord(db[id])], rest - {id}, db)
    ensures RecordsBytes(rs + [ToRecord(db[id])]) == RecordsBytes(rs) + RecordBytes(ToRecord(db[id]))
  {
    var rs' := rs + [ToRecord(db[id])];
    assert rs'[..|rs|] == rs;
    assert |rest - {id}| == |rest| - 1;
  }

  lemma TooMany(rs: seq<Record>, rest: set<uint32>, db: Directory)
    requires Listing(rs, rest, db) && |rs| >= 255 && rest != {}
    ensures |db| > 255
  {
    assert |rest| > 0;
  }

  lemma ListingDone(rs: seq<Record>, rest: set<uint32>, db: Directory, cnt: byte, len: nat)
    requires Listing(rs, rest, db) && cnt == |rs| && len == 1 + RECORD_SIZE * |rs|
    requires !(rest != {} && len < MAX_LENGTH && cnt < MAX_LENGTH / RECORD_SIZE)
    ensures Lists(rs, db) && |db| <= 255
  {
    assert rest == {};
  }

  /** What a client may see: nothing yet, or a readable snapshot of the directory after `p` log entries. */
  ghost predicate IsSnapshot(out: seq<byte>, log: seq<Op>, p: Option<nat>) {
    match p
    case None => out == []
    case Some(n) => n <= |log| && exists rs :: Lists(rs, Apply(log[..n])) && ReadSnapshot(out) == Some(rs)
  }

  // ----- Whole runs of the directory -----

  /** How far things have got: the requests made, how many the worker has taken, what clients can read.  `broken`
      says that a publication has left the buffer; from then on nothing is known about what clients read. */
  datatype Progress = Progress(log: seq<Op>, applied: nat, published: Option<nat>, broken: bool)

  const FRESH := Progress([], 0, None, false)

  datatype Activity = Requested(op: Op) | Operated | Serialised

  function Advance(s: Progress, a: Activity): Progress {
    match a
    case Requested(op) => s.(log := s.log + [op])
    case Operated => if s.applied < |s.log| then s.(applied := s.applied + 1) else s
    case Serialised =>
      if s.applied <= |s.log| && |Apply(s.log[..s.applied])| <= 255 then s.(published := Some(s.applied))
      else s.(broken := true)
  }

  function Progressed(run: seq<Activity>): (s: Progress)
    ensures s.applied <= |s.log|
  {
    if run == [] then FRESH else Advance(Progressed(run[..|run| - 1]), run[|run| - 1])
  }

  predicate NotLater(p: Option<nat>, q: Option<nat>) {
    p.None? || (q.Some? && p.value <= q.value)
  }

  ghost predicate ProgressInv(s: Progress) {
    s.applied <= |s.log| && NotLater(s.published, Some(s.applied))
  }

  lemma {:induction false} RunsKeepProgress(run: seq<Activity>)
    ensures ProgressInv(Progressed(run))
    decreases |run|
  {
    if run != [] {
      RunsKeepProgress(run[..|run| - 1]);
    }
  }

  /** The directory as the worker has it after a run. */
  function DirectoryAfter(run: seq<Activity>): Directory {
    Apply(Progressed(run).log[..Progressed(run).applied])
  }

  /** Whatever order the map yields its entries in, the bytes fit the buffer and are read back. */
  ghost predicate Readable(db: Directory) {
    forall rs :: Lists(rs, db) ==> |SnapshotBytes(rs)| <= MAX_LENGTH && ReadSnapshot(SnapshotBytes(rs)) == Some(rs)
  }

  /** If activity `k` of the run is a publication, it is a readable snapshot of the directory at that moment. */
  ghost predicate ReadableAt(run: seq<Activity>, k: nat)
    requires k < |run|
  {
    run[k].Serialised? ==> Readable(DirectoryAfter(run[..k]))
  }

  ghost predicate AllReadable(run: seq<Activity>) {
    forall k :: 0 <= k < |run| ==> ReadableAt(run, k)
  }

  lemma {:induction false} ListingExists(db: Directory) returns (rs: seq<Record>)
    requires forall id :: id in db ==> db[id].id == id
    ensures Lists(rs, db)
    decreases |db|
  {
    if db == map[] {
      rs := [];
    } else {
      var id :| id in db;
      var rest := db - {id};
      assert |rest.Keys| == |db.Keys - {id}| == |db| - 1 by {
        assert rest.Keys == db.Keys - {id};
      }
      rs := ListingExists(rest);
      rs := rs + [ToRecord(db[id])];
    }
  }

  lemma {:induction false} KeysAreIds(log: seq<Op>)
    ensures forall id :: id in Apply(log) ==> Apply(log)[id].id == id
  {
    if log != [] {
      KeysAreIds(log[..|log| - 1]);
    }
  }

  lemma ReadableIffSmall(log: seq<Op>)
    ensures Readable(Apply(log)) <==> |Apply(log)| <= 255
  {
    KeysAreIds(log);
    var db := Apply(log);
    if |db| <= 255 {
      forall rs | Lists(rs, db)
        ensures |SnapshotBytes(rs)| <= MAX_LENGTH && ReadSnapshot(SnapshotBytes(rs)) == Some(rs)
      {
        SnapshotRoundTrip(rs);
      }
    } else {
      var rs := ListingExists(db);
      SnapshotRoundTrip(rs);
    }
  }

  lemma AllReadableSnoc(run: seq<Activity>, a: Activity)
    ensures AllReadable(run + [a]) <==> AllReadable(run) && (a.Serialised? ==> Readable(DirectoryAfter(run)))
  {
    hide Readable, DirectoryAfter;
    var all := run + [a];
    assert all[..|run|] == run;
    forall k | 0 <= k < |run|
      ensures ReadableAt(all, k) <==> ReadableAt(run, k)
    {
      assert all[..k] == run[..k];
    }
    assert ReadableAt(all, |run|) <==> (a.Serialised? ==> Readable(DirectoryAfter(run)));
    if AllReadable(all) {
      assert ReadableAt(all, |run|);
      forall k | 0 <= k < |run|
        ensures ReadableAt(run, k)
      {
        assert ReadableAt(all, k);
      }
    }
  }

  lemma BreaksIfUnreadable(run: seq<Activity>, a: Activity)
    ensures Progressed(run + [a]).broken
       <==> Progressed(run).broken || (a.Serialised? && !Readable(DirectoryAfter(run)))
  {
    hide Readable;
    assert (run + [a])[..|run|] == run;
    var s := Progressed(run);
    ReadableIffSmall(s.log[..s.applied]);
  }

  lemma {:induction false} ReadableIffNeverBroken(run: seq<Activity>)
    ensures AllReadable(run) <==> !Progressed(run).broken
    decreases |run|
  {
    hide Readable, AllReadable, DirectoryAfter, Progressed, Apply;
    if run == [] {
      FreshIsReadable(run);
    } else {
      var before, a := run[..|run| - 1], run[|run| - 1];
      assert run == before + [a];
      ReadableIffNeverBroken(before);
      AllReadableSnoc(before, a);
      BreaksIfUnreadable(before, a);
    }
  }

  lemma FreshIsReadable(run: seq<Activity>)
    requires run == []
    ensures AllReadable(run) && !Progressed(run).broken
  {
    hide Readable;
  }

  /** No publication was made with more than 255 entries in the directory. */
  ghost predicate AllSmall(run: seq<Activity>) {
    forall k :: 0 <= k < |run| && run[k].Serialised? ==> |DirectoryAfter(run[..k])| <= 255
  }

  /** Every publication of a run is a readable snapshot exactly when none was made with more than 255 entries in
      the directory; otherwise the buffer has been left. */
  lemma PublicationsReadable(run: seq<Activity>)
    ensures AllReadable(run) <==> AllSmall(run)
    ensures AllReadable(run) <==> !Progressed(run).broken
  {
    ReadableIffNeverBroken(run);
    forall k | 0 <= k < |run|
      ensures ReadableAt(run, k) <==> (run[k].Serialised? ==> |DirectoryAfter(run[..k])| <= 255)
    {
      var s := Progressed(run[..k]);
      ReadableIffSmall(s.log[..s.applied]);
    }
    hide DirectoryAfter, ReadableAt, Progressed;
  }

  lemma {:induction false} LaterProgress(run: seq<Activity>, more: seq<Activity>)
    ensures var s, t := Progressed(run), Progressed(run + more);
      && s.log <= t.log && s.applied <= t.applied && NotLater(s.published, t.published) && (s.broken ==> t.broken)
    decreases |more|
  {
    var n := |more|;
    if n == 0 {
      assert run + more == run;
    } else {
      var all := run + more;
      assert all[..|all| - 1] == run + more[..n - 1];
      LaterProgress(run, more[..n - 1]);
      RunsKeepProgress(all[..|all| - 1]);
    }
  }

  /** Consistent prefixes: in every run of requests, worker steps and publications in which every publication is
      readable, a client that reads later never sees an earlier prefix, and what anyone has read stays a snapshot
      of that prefix of the log. */
  lemma SnapshotsAdvance(run: seq<Activity>, more: seq<Activity>, out: seq<byte>)
    requires AllReadable(run + more)
    requires IsSnapshot(out, Progressed(run).log, Progressed(run).published)
    ensures var s, t := Progressed(run), Progressed(run + more);
      && !s.broken && !t.broken
      && NotLater(s.published, t.published) && NotLater(t.published, Some(t.applied)) && t.applied <= |t.log|
      && IsSnapshot(out, t.log, s.published)
  {
    hide AllReadable, Apply;
    LaterProgress(run, more);
    RunsKeepProgress(run + more);
    ReadableIffNeverBroken(run + more);
    var s, t := Progressed(run), Progressed(run + more);
    if s.published.Some? {
      assert t.log[..s.published.value] == s.log[..s.published.value];
    }
  }

  /** The worker takes `n` more requests. */
  function Taking(n: nat): seq<Activity> {
    if n == 0 then [] else Taking(n - 1) + [Operated]
  }

  lemma ProgressedSnoc(run: seq<Activity>, a: Activity)
    ensures Progressed(run + [a]) == Advance(Progressed(run), a)
  {
    assert (run + [a])[..|run|] == run;
  }

  lemma {:induction false} TakesAll(run: seq<Activity>, n: nat)
    requires n <= |Progressed(run).log| - Progressed(run).applied
    ensures var s := Progressed(run); Progressed(run + Taking(n)) == s.(applied := s.applied + n)
  {
    hide Progressed, Apply;
    if n == 0 {
      assert run + Taking(0) == run;
    } else {
      TakesAll(run, n - 1);
      ProgressedSnoc(run + Taking(n - 1), Operated);
      assert run + Taking(n) == run + Taking(n - 1) + [Operated];
    }
  }

  /** Whatever has happened: when the worker has taken each pending request once and publishes, clients read the
      directory that the whole log describes, unless it holds more than 255 entries. */
  lemma CatchesUp(run: seq<Activity>) returns (more: seq<Activity>)
    ensures var s, t := Progressed(run), Progressed(more);
      && |more| == |run| + |s.log| - s.applied + 1 && t.log == s.log && t.applied == |s.log|
      && (if |Apply(s.log)| <= 255 then t.published == Some(|s.log|) && t.broken == s.broken else t.broken)
  {
    var s := Progressed(run);
    var n := |s.log| - s.applied;
    TakesAll(run, n);
    TakingLength(n);
    ProgressedSnoc(run + Taking(n), Serialised);
    assert s.log[..|s.log|] == s.log;
    more := run + Taking(n) + [Serialised];
  }

  lemma {:induction false} TakingLength(n: nat)
    ensures |Taking(n)| == n
  {
    if n > 0 {
      TakingLength(n - 1);
    }
  }

  /** `n` sessions log in, and the worker takes all their additions. */
  function Additions(n: nat): seq<Activity>
    requires n <= UINT32
  {
    if n == 0 then []
    else Additions(n - 1) + [Requested(Add(SessionInfo(n - 1, 0, "")))] + [Operated]
  }

  lemma AdditionAdvances(run: seq<Activity>, info: SessionInfo)
    requires Progressed(run).applied == |Progressed(run).log|
    ensures var s, t := Progressed(run), Progressed(run + [Requested(Add(info))] + [Operated]);
      t == s.(log := s.log + [Add(info)], applied := s.applied + 1)
  {
    var requested := run + [Requested(Add(info))];
    assert requested[..|run|] == run && (requested + [Operated])[..|requested|] == requested;
  }

  lemma ApplySnoc(log: seq<Op>, op: Op)
    ensures Apply(log + [op]) == ApplyOp(Apply(log), op)
  {
    assert (log + [op])[..|log|] == log;
  }

  /** The directory holds exactly the ids below `n`. */
  ghost predicate HoldsBelow(db: Directory, n: nat) {
    |db| == n && forall id :: id in db <==> 0 <= id < n
  }

  lemma InsertHoldsBelow(db: Directory, n: nat, info: SessionInfo)
    requires HoldsBelow(db, n) && info.id == n
    ensures HoldsBelow(ApplyOp(db, Add(info)), n + 1)
  {
    assert info.id !in db;
  }

  lemma {:induction false} AdditionsFill(n: nat)
    requires n <= UINT32
    ensures var s := Progressed(Additions(n));
      s.applied == |s.log| && s.published == None && !s.broken && HoldsBelow(Apply(s.log), n)
  {
    if n > 0 {
      AdditionsFill(n - 1);
      hide Progressed, Apply, HoldsBelow, ApplyOp;
      var s, info := Progressed(Additions(n - 1)), SessionInfo(n - 1, 0, "");
      AdditionAdvances(Additions(n - 1), info);
      ApplySnoc(s.log, Add(info));
      InsertHoldsBelow(Apply(s.log), n - 1, info);
    }
  }

  /** With no limit on the number of sessions the buffer is left, for every count above 255. */
  lemma OverrunIsReached(n: nat)
    requires 255 < n <= UINT32
    ensures Progressed(Additions(n) + [Serialised]).broken && !AllReadable(Additions(n) + [Serialised])
  {
    AdditionsFill(n);
    var run := Additions(n) + [Serialised];
    assert run[..|run| - 1] == Additions(n);
    var s := Progressed(Additions(n));
    assert s.log[..s.applied] == s.log;
    ReadableIffNeverBroken(run);
  }

  lemma TakeOldest(log: seq<Op>, applied: nat)
    requires applied < |log|
    ensures log[applied..][0] == log[applied] && log[applied..][1..] == log[applied + 1..]
    ensures Apply(log[..applied + 1]) == ApplyOp(Apply(log[..applied]), log[applied])
  {
    assert log[..applied + 1] == log[..applied] + [log[applied]];
    ApplySnoc(log[..applied], log[applied]);
  }

  /** `log` remembers every request ever made and `applied` how many the worker has taken; neither exists
      in the program, where only the pending rest is kept. */
  class SessionDb {
    var opStack: seq<Op>
    var db: Directory
    const buff: array<byte>
    var buffLen: nat
    var outBuff: seq<byte>
    ghost var log: seq<Op>
    ghost var applied: nat
    ghost var published: Option<nat>
    ghost var broken: bool

    ghost function Now(): Progress
      reads this
    {
      Progress(log, applied, published, broken)
    }

    ghost predicate Valid()
      reads this
    {
      && buff.Length == MAX_LENGTH && !broken
      && applied <= |log| && opStack == log[applied..] && db == Apply(log[..applied])
      && (forall id :: id in db ==> db[id].id == id)
      && IsSnapshot(outBuff, log, published)
      && (published.Some? ==> published.value <= applied)
    }

    constructor ()
      ensures Valid() && Now() == FRESH && fresh(buff)
    {
      opStack, db, buffLen, outBuff := [], map[], 0, [];
      buff := new byte[MAX_LENGTH];
      log, applied, published, broken := [], 0, None, false;
    }

    /** The directory and the pending requests together are what the whole log describes. */
    lemma PendingAreKept()
      requires Valid()
      ensures ApplyFrom(db, opStack) == Apply(log)
    {
      PendingCompletes(log, applied);
    }

    method Add(info: SessionInfo)
      requires Valid()
      modifies this`opStack, this`log
      ensures Valid() && Now() == Advance(old(Now()), Requested(Op.Add(info)))
    {
      Request(Op.Add(info));
    }

    method Del(id: uint32)
      requires Valid()
      modifies this`opStack, this`log
      ensures Valid() && Now() == Advance(old(Now()), Requested(Op.Del(id)))
    {
      Request(Op.Del(id));
    }

    method Request(op: Op)
      requires Valid()
      modifies this`opStack, this`log
      ensures Valid() && Now() == Advance(old(Now()), Requested(op))
    {
      opStack := opStack + [op];
      log := log + [op];
      assert log[..applied] == old(log)[..applied];
      assert published.Some? ==> log[..published.value] == old(log)[..published.value];
    }

    /** The worker takes the oldest request; with none pending it was only woken up. */
    method Operate() returns (took: bool)
      requires Valid()
      modifies this`opStack, this`db, this`applied
      ensures Valid() && took == (old(applied) < |log|)
      ensures Now() == Advance(old(Now()), Operated)
      ensures db == if took then ApplyOp(old(db), old(opStack)[0]) else old(db)
    {
      hide Apply, IsSnapshot;
      if opStack == [] {
        return false;
      }
      var op := opStack[0];
      TakeOldest(log, applied);
      KeysAreIds(log[..applied + 1]);
      match op {
        case Add(info) =>
          if info.id !in db {
            db := db[info.id := info];
          }
        case Del(id) =>
          if id in db {
            db := db - {id};
          }
          assert db == old(db) - {id};
      }
      opStack := opStack[1..];
      applied := applied + 1;
      return true;
    }

    /** Write the directory into the buffer, entry by entry in whatever order the hash map yields, and publish
        it.  `ok` is false when the copy leaves the buffer; the program does not notice, publishes whatever it then
        finds there and carries on, while here nothing is promised any more. */
    method Serial() returns (ok: bool)
      requires Valid()
      modifies this`buffLen, this`outBuff, this`published, this`broken, buff
      ensures ok <==> |db| <= 255
      ensures ok ==> Valid()
      ensures Now() == Advance(old(Now()), Serialised)
      ensures ok ==> |outBuff| == 1 + RECORD_SIZE * |db| && exists rs :: Lists(rs, db) && outBuff == SnapshotBytes(rs)
      ensures !ok ==> outBuff == old(outBuff)
    {
      ghost var rs;
      ok, rs := Fill();
      if ok {
        outBuff := buff[..buffLen];
        published := Some(applied);
        SnapshotRoundTrip(rs);
      } else {
        broken := true;
      }
    }

    /** The buffer holds the records `rs`; the entries with ids in `rest` are still to be written. */
    ghost predicate Filled(rs: seq<Record>, rest: set<uint32>)
      reads this, buff
    {
      && buff.Length == MAX_LENGTH && buffLen == 1 + RECORD_SIZE * |rs| && |rs| <= 255
      && Listing(rs, rest, db)
      && buff[1..buffLen] == RecordsBytes(rs)
    }

    /** Write the entry of one id, unless that would leave the buffer. */
    method Put(it: uint32, ghost rs: seq<Record>, ghost rest: set<uint32>) returns (more: bool, ghost rs': seq<Record>)
      requires Filled(rs, rest) && it in rest && db[it].id == it
      modifies this`buffLen, buff
      ensures if more then Filled(rs', rest - {it}) && |rs'| == |rs| + 1 <= 255 else |db| > 255
    {
      hide RecordsBytes;
      var id, addr := db[it].id, db[it].addr;
      if buffLen + RECORD_SIZE > MAX_LENGTH {
        TooMany(rs, rest, db);
        return false, rs;
      }
      ListingStep(rs, rest, db, it);
      WriteRecord(id, addr);
      return true, rs + [Record(id, addr)];
    }

    method Fill() returns (ok: bool, ghost rs: seq<Record>)
      requires buff.Length == MAX_LENGTH && forall id :: id in db ==> db[id].id == id
      modifies this`buffLen, buff
      ensures ok <==> |db| <= 255
      ensures ok ==> Lists(rs, db) && buffLen == 1 + RECORD_SIZE * |rs| && buff[..buffLen] == SnapshotBytes(rs)
    {
      hide Listing, Lists;
      Bzero();
      ListingStart(db);
      var cnt: byte := 0;
      var maxCnt := MAX_LENGTH / RECORD_SIZE;
      var rest := db.Keys;
      rs := [];
      buffLen := 1;
      while rest != {} && buffLen < MAX_LENGTH && cnt < maxCnt
        invariant Filled(rs, rest) && |rs| <= 255
        invariant cnt == |rs|
        decreases rest
      {
        hide Filled;
        var it :| it in rest;
        var more;
        more, rs := Put(it, rs, rest);
        if !more {
          return false, rs;
        }
        rest := rest - {it};
        cnt := (cnt + 1) % 256;
      }
      hide RecordsBytes;
      ListingDone(rs, rest, db, cnt, buffLen);
      Close(cnt);
      return true, rs;
    }

    /** Write the count in front of the records and a terminator behind them. */
    method Close(cnt: byte)
      requires 1 <= buffLen < buff.Length
      modifies buff
      ensures buff[..buffLen] == [cnt] + old(buff[1..buffLen])
    {
      buff[0] := cnt;
      buff[buffLen] := 0;
    }

    method Bzero()
      modifies buff
      ensures forall i :: 0 <= i < buff.Length ==> buff[i] == 0
    {
      forall i | 0 <= i < buff.Length {
        buff[i] := 0;
      }
    }

    method WriteRecord(id: uint32, addr: uint32)
      requires buff.Length == MAX_LENGTH && 1 <= buffLen && buffLen + RECORD_SIZE <= MAX_LENGTH
      modifies this`buffLen, buff
      ensures buffLen == old(buffLen) + RECORD_SIZE
      ensures buff[1..buffLen] == old(buff[1..buffLen]) + RecordBytes(Record(id, addr))
    {
      ghost var start := buffLen;
      Memcpy(buffLen, Le32(id));
      buffLen := buffLen + 4;
      Memcpy(buffLen, Le32(addr));
      buffLen := buffLen + 4;
      assert buff[..buffLen - 4][start..] == Le32(id);
      assert buff[..buffLen - 4][..start] == old(buff[..buffLen]);
    }

    method Memcpy(at: nat, s: seq<byte>)
      requires at + |s| <= buff.Length
      modifies buff
      ensures buff[at..at + |s|] == s
      ensures buff[..at] == old(buff[..at])
    {
      forall j | 0 <= j < |s| {
        buff[at + j] := s[j];
      }
    }

    /** What a client is given. */
    method Output() returns (out: seq<byte>)
      requires Valid()
      ensures IsSnapshot(out, log, published)
    {
      out := outBuff;
    }
  }
}
