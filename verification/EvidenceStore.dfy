/**
 * The write-once evidence stores (approval receipts and composition attestations run the same protocol):
 * one durable record per identity, created exclusively under a lock and never overwritten.
 */
module EvidenceStore {
  import opened Wrappers

  datatype Evidence = Evidence(id: string, body: string)

  /** Record text: decoding inverts encoding, and no unfinished record text decodes. */
  datatype Codec = Codec(encode: Evidence -> string, decode: string -> Option<Evidence>) {
    ghost predicate Sound() {
      && (forall e :: decode(encode(e)) == Some(e))
      && (forall e, n :: 0 <= n < |encode(e)| ==> decode(encode(e)[..n]) == None)
    }
  }

  /** Marks every character, and the end. */
  function Escape(s: string): string { if s == "" then "0" else ['1', s[0]] + Escape(s[1..]) }

  lemma {:induction false} EscapeEnds(a: string, b: string, x: string, y: string)
    requires Escape(a) + x <= Escape(b) + y
    ensures a == b && x <= y
  {
    var s, t := Escape(a) + x, Escape(b) + y;
    assert s[0] == t[0];
    if a != "" {
      assert s[1] == t[1] && s[2..] == Escape(a[1..]) + x && t[2..] == Escape(b[1..]) + y;
      EscapeEnds(a[1..], b[1..], x, y);
      assert a == [a[0]] + a[1..] && b == [b[0]] + b[1..];
    } else {
      assert s[1..] == x && t[1..] == y;
    }
  }

  /** The hypotheses about codecs can be met. */
  lemma SoundCodecsExist()
    ensures exists codec: Codec :: codec.Sound()
  {
    var encode := (e: Evidence) => Escape(e.id) + Escape(e.body);
    forall e, f | encode(e) <= encode(f) ensures e == f {
      EscapeEnds(e.id, f.id, Escape(e.body), Escape(f.body));
      EscapeEnds(e.body, f.body, "", "");
    }
    var codec := Codec(encode, s => if e :| encode(e) == s then Some(e) else None);
    assert codec.Sound();
  }

  datatype Lookup = Absent | Present(evidence: Evidence) | Corrupt

  /** Reads one record: absent, valid evidence under its own key, or corrupt. */
  function Look(codec: Codec, files: map<string, string>, id: string): Lookup {
    if id !in files then Absent
    else
      match codec.decode(files[id])
      case Some(e) => if e.id == id then Present(e) else Corrupt
      case None => Corrupt
  }

  /** A record is evidence only if it decodes, and under the id it names. */
  lemma LookExactly(codec: Codec, files: map<string, string>, id: string)
    ensures Look(codec, files, id) == Absent <==> id !in files
    ensures forall e :: Look(codec, files, id) == Present(e) <==>
                          id in files && codec.decode(files[id]) == Some(e) && e.id == id
  {}

  datatype Outcome =
    | Claimed | Duplicate(existing: Evidence) | Conflict(existing: Evidence)
    | ReadBack(evidence: Evidence) | Missing | CorruptRecord | Unavailable
    | AppearedDuringClaim   // the exclusive create found a record the locked read had not

  /** What the operating system does to one claim: nothing, refuse to create, or stop after some characters. */
  datatype Fault = NoFault | CreateFails | WriteStops(after: nat)

  /** One whole claim: outcome and files afterwards. */
  function ClaimEffect(codec: Codec, files: map<string, string>, e: Evidence, fault: Fault):
    (map<string, string>, Outcome) {
    match Look(codec, files, e.id)
    case Corrupt => (files, CorruptRecord)
    case Present(x) => (files, if x == e then Duplicate(x) else Conflict(x))
    case Absent =>
      match fault
      case NoFault => (files[e.id := codec.encode(e)], Claimed)
      case CreateFails => (files, Unavailable)
      case WriteStops(n) =>
        (files[e.id := if n <= |codec.encode(e)| then codec.encode(e)[..n] else codec.encode(e)], Unavailable)
  }

  /** What one claim answers and writes, by what is stored and what the operating system does. */
  lemma ClaimExactly(codec: Codec, files: map<string, string>, e: Evidence, fault: Fault)
    ensures var (files', outcome) := ClaimEffect(codec, files, e, fault);
            if e.id in files then
              && files' == files
              && (outcome == Duplicate(e) <==> codec.decode(files[e.id]) == Some(e))
              && (forall x :: outcome == Conflict(x) <==>
                                codec.decode(files[e.id]) == Some(x) && x.id == e.id && x != e)
              && (outcome.Duplicate? || outcome.Conflict? || outcome == CorruptRecord)
            else
              && (outcome == Claimed <==> fault == NoFault) && (outcome != Claimed ==> outcome == Unavailable)
              && (fault == NoFault ==> files' == files[e.id := codec.encode(e)])
              && (fault == CreateFails ==> files' == files)
              && (fault.WriteStops? ==>
                    && files'.Keys == files.Keys + {e.id} && files'[e.id] <= codec.encode(e)
                    && (forall id :: id in files ==> files'[id] == files[id])
                    && (|files'[e.id]| == fault.after || (fault.after > |codec.encode(e)| == |files'[e.id]|)))
  {}

  /** The store as one caller sees it while holding the lock. */
  class FileEvidenceStore {
    const codec: Codec
    var files: map<string, string>

    constructor (codec: Codec)
      ensures this.codec == codec && files == map[]
    {
      this.codec := codec;
      files := map[];
    }

    method ReadUnlocked(id: string) returns (found: Lookup)
      ensures found == Look(codec, files, id)
    {
      if id !in files {
        return Absent;
      }
      var parsed := codec.decode(files[id]);
      if parsed.None? {
        return Corrupt;
      }
      if parsed.value.id != id {
        return Corrupt;
      }
      found := Present(parsed.value);
    }

    /** Exclusive create, then write; a stopped write leaves what it got out. */
    method WriteUnlocked(e: Evidence, fault: Fault) returns (outcome: Outcome)
      modifies this
      ensures e.id in old(files) && !fault.CreateFails? ==> outcome == AppearedDuringClaim && files == old(files)
      ensures fault.CreateFails? ==> outcome == Unavailable && files == old(files)
      ensures e.id !in old(files) ==>
                (files, outcome) ==
                match fault
                case NoFault => (old(files)[e.id := codec.encode(e)], Claimed)
                case CreateFails => (old(files), Unavailable)
                case WriteStops(n) =>
                  (old(files)[e.id := if n <= |codec.encode(e)| then codec.encode(e)[..n] else
                    codec.encode(e)], Unavailable)
    {
      if fault.CreateFails? {
        return Unavailable;
      }
      if e.id in files {
        return AppearedDuringClaim;
      }
      var payload := codec.encode(e);
      files := files[e.id := ""];
      var stored := if fault.WriteStops? && fault.after <= |payload| then payload[..fault.after] else payload;
      files := files[e.id := stored];
      assert files == old(files)[e.id := stored];
      outcome := if fault.NoFault? then Claimed else Unavailable;
    }

    /** Claims the identity, or reports what is already there. */
    method Claim(e: Evidence, fault: Fault) returns (outcome: Outcome)
      modifies this
      ensures (files, outcome) == ClaimEffect(codec, old(files), e, fault)
    {
      var existing := ReadUnlocked(e.id);
      match existing {
        case Corrupt =>
          outcome := CorruptRecord;
        case Present(x) =>
          outcome := if x == e then Duplicate(x) else Conflict(x);
        case Absent =>
          outcome := WriteUnlocked(e, fault);
      }
    }

    method Read(id: string) returns (outcome: Outcome)
      ensures outcome == match Look(codec, files, id)
                         case Absent => Missing
                         case Present(e) => ReadBack(e)
                         case Corrupt => CorruptRecord
    {
      var found := ReadUnlocked(id);
      match found {
        case Absent => outcome := Missing;
        case Present(e) => outcome := ReadBack(e);
        case Corrupt => outcome := CorruptRecord;
      }
    }
  }

  datatype Op = Claim(evidence: Evidence) | Read(id: string) {
    function Id(): string { if Claim? then evidence.id else id }
  }

  /** Where one store call stands. */
  datatype Pc =
    | Waiting(op: Op)                           // for the lock
    | Locked(op: Op)                            // holds it, about to read
    | Creating(evidence: Evidence)              // read nothing, about to create exclusively
    | Writing(evidence: Evidence, written: nat) // the record exists with that many characters

  predicate InCriticalSection(pc: Pc) { !pc.Waiting? }

  datatype LogEntry = LogEntry(op: Op, outcome: Outcome)

  /** `creators` remembers whose claim created each record; `log` what finished calls returned. */
  datatype World = World(
    files: map<string, string>, lock: Option<nat>,
    procs: map<nat, Pc>, log: seq<LogEntry>, creators: map<string, Evidence>)

  /**
   * The environment's part: which call begins, whether the process crashes or the OS refuses,
   * how much gets written.
   */
  datatype Choice = Choice(op: Op, crashes: bool, refused: bool, progress: nat)

  /** The call leaves: its process entry goes, and with it the lock it held. */
  function Leave(w: World, p: nat): World {
    w.(procs := w.procs - {p}, lock := if w.lock == Some(p) then None else w.lock)
  }

  function Finish(w: World, p: nat, op: Op, outcome: Outcome): World {
    Leave(w, p).(log := w.log + [LogEntry(op, outcome)])
  }

  function Answer(op: Op, found: Lookup): Outcome {
    match found
    case Corrupt => CorruptRecord
    case Absent => Missing
    case Present(x) => if op.Read? then ReadBack(x) else if x == op.evidence then Duplicate(x) else Conflict(x)
  }

  /** One step of process `p`. */
  function Next(codec: Codec, w: World, p: nat, choice: Choice): World {
    if p !in w.procs then w.(procs := w.procs[p := Waiting(choice.op)])
    else if choice.crashes then Leave(w, p)
    else
      match w.procs[p]
      case Waiting(op) =>
        if choice.refused then Finish(w, p, op, Unavailable)
        else if w.lock.Some? then w
        else w.(lock := Some(p), procs := w.procs[p := Locked(op)])
      case Locked(op) =>
        var found := Look(codec, w.files, op.Id());
        if choice.refused then Finish(w, p, op, Unavailable)
        else if op.Claim? && found.Absent? then w.(procs := w.procs[p := Creating(op.evidence)])
        else Finish(w, p, op, Answer(op, found))
      case Creating(e) =>
        if choice.refused then Finish(w, p, Claim(e), Unavailable)
        else if e.id in w.files then Finish(w, p, Claim(e), AppearedDuringClaim)
        else w.(files := w.files[e.id := ""], procs := w.procs[p := Writing(e, 0)], creators := w.creators[e.id := e])
      case Writing(e, written) =>
        var payload := codec.encode(e);
        if choice.refused then Finish(w, p, Claim(e), Unavailable)
        else if written >= |payload| then Finish(w, p, Claim(e), Claimed)
        else
          var more := if written + choice.progress <= |payload| then written + choice.progress else |payload|;
          w.(files := w.files[e.id := payload[..more]], procs := w.procs[p := Writing(e, more)])
  }

  datatype Turn = Turn(process: nat, choice: Choice)

  const START := World(map[], None, map[], [], map[])

  function RunFrom(codec: Codec, w: World, schedule: seq<Turn>): World {
    if schedule == [] then w else
      var last := schedule[|schedule| - 1];
      Next(codec, RunFrom(codec, w, schedule[..|schedule| - 1]), last.process, last.choice)
  }

  /** `e` is completely on disk under its own id. */
  predicate Stored(codec: Codec, w: World, e: Evidence) {
    e.id in w.creators && w.creators[e.id] == e && e.id in w.files && w.files[e.id] == codec.encode(e)
  }

  /** Every record is an initial part of what its creator set out to write. */
  ghost predicate RecordsOk(codec: Codec, w: World) {
    w.files.Keys == w.creators.Keys &&
    forall id :: id in w.files ==> w.creators[id].id == id && w.files[id] <= codec.encode(w.creators[id])
  }

  predicate ProcOk(codec: Codec, w: World, p: nat)
    requires p in w.procs
  {
    && (InCriticalSection(w.procs[p]) <==> w.lock == Some(p))
    && match w.procs[p]
       case Waiting(_) => true
       case Locked(_) => true
       case Creating(e) => e.id !in w.files
       case Writing(e, n) =>
         && e.id in w.files && e.id in w.creators && w.creators[e.id] == e
         && n <= |codec.encode(e)| && w.files[e.id] == codec.encode(e)[..n]
         && forall x :: x in w.log && x.op.Id() == e.id ==> !x.outcome.Claimed?
  }

  /** What a returned outcome says about the disk, for good. */
  predicate EntryOk(codec: Codec, w: World, x: LogEntry) {
    match x.outcome
    case Claimed => x.op.Claim? && Stored(codec, w, x.op.evidence)
    case Duplicate(e) => x.op.Claim? && e == x.op.evidence && Stored(codec, w, e)
    case Conflict(e) => x.op.Claim? && e != x.op.evidence && e.id == x.op.Id() && Stored(codec, w, e)
    case ReadBack(e) => x.op.Read? && e.id == x.op.Id() && Stored(codec, w, e)
    case Missing => x.op.Read?
    case CorruptRecord => true
    case Unavailable => true
    case AppearedDuringClaim => false
  }

  ghost predicate ClaimedOnce(log: seq<LogEntry>) {
    forall i, j :: 0 <= i < j < |log| && log[i].outcome.Claimed? && log[j].outcome.Claimed? ==>
      log[i].op.Id() != log[j].op.Id()
  }

  ghost predicate Inv(codec: Codec, w: World) {
    && RecordsOk(codec, w)
    && (w.lock.Some? ==> w.lock.value in w.procs)
    && (forall p :: p in w.procs ==> ProcOk(codec, w, p))
    && (forall x :: x in w.log ==> EntryOk(codec, w, x))
    && ClaimedOnce(w.log)
  }

  /** A readable record is the complete text of its creator's evidence. */
  lemma ReadableIsComplete(codec: Codec, w: World, id: string)
    requires codec.Sound() && RecordsOk(codec, w) && id in w.files
    ensures Look(codec, w.files, id).Present? <==> w.files[id] == codec.encode(w.creators[id])
    ensures Look(codec, w.files, id).Present? ==>
              Look(codec, w.files, id).evidence == w.creators[id] && Stored(codec, w, w.creators[id])
  {
    var e := w.creators[id];
    var n := |w.files[id]|;
    assert w.files[id] == codec.encode(e)[..n];
    if n == |codec.encode(e)| { assert codec.encode(e)[..n] == codec.encode(e); }
  }

  lemma LeaveKeepsInv(codec: Codec, w: World, p: nat)
    requires Inv(codec, w) && p in w.procs
    ensures Inv(codec, Leave(w, p))
  {
    forall q | q in w.procs && q != p ensures ProcOk(codec, Leave(w, p), q) { assert ProcOk(codec, w, q); }
    forall x | x in w.log ensures EntryOk(codec, Leave(w, p), x) { assert EntryOk(codec, w, x); }
  }

  lemma FinishKeepsInv(codec: Codec, w: World, p: nat, op: Op, outcome: Outcome)
    requires Inv(codec, w) && p in w.procs && EntryOk(codec, w, LogEntry(op, outcome))
    requires outcome.Claimed? ==>
               w.lock == Some(p) && forall x :: x in w.log && x.op.Id() == op.Id() ==> !x.outcome.Claimed?
    ensures Inv(codec, Finish(w, p, op, outcome))
  {}

  /** Steps that touch neither disk nor log. */
  lemma MoveKeepsInv(codec: Codec, w: World, p: nat, w': World)
    requires Inv(codec, w)
    requires w'.files == w.files && w'.creators == w.creators && w'.log == w.log
    requires p in w'.procs && w'.procs == w.procs[p := w'.procs[p]] && ProcOk(codec, w', p)
    requires w'.lock == w.lock || (w.lock == None && w'.lock == Some(p))
    ensures Inv(codec, w')
  {
    forall q | q in w'.procs && q != p ensures ProcOk(codec, w', q) { assert ProcOk(codec, w, q); }
    forall x | x in w.log ensures EntryOk(codec, w', x) { assert EntryOk(codec, w, x); }
  }

  /** About to create the record of `e`, or still writing it. */
  predicate MayWrite(codec: Codec, pc: Pc, e: Evidence) {
    pc == Creating(e) || (pc.Writing? && pc.evidence == e && pc.written < |codec.encode(e)|)
  }

  /** Steps of the lock holder that write its own record, which nothing in the log speaks about yet. */
  lemma WriteKeepsInv(codec: Codec, w: World, p: nat, e: Evidence, more: nat)
    requires Inv(codec, w) && p in w.procs && w.lock == Some(p) && more <= |codec.encode(e)|
    requires MayWrite(codec, w.procs[p], e) && (w.procs[p].Creating? ==> more == 0)
    ensures Inv(codec, w.(files := w.files[e.id := codec.encode(e)[..more]], procs := w.procs[p := Writing(e, more)],
                          creators := w.creators[e.id := e]))
  {
    var w' := w.(files := w.files[e.id := codec.encode(e)[..more]], procs := w.procs[p := Writing(e, more)],
                 creators := w.creators[e.id := e]);
    assert ProcOk(codec, w, p);
    NotYetStored(codec, w, p, e);
    forall q | q in w'.procs ensures ProcOk(codec, w', q) {
      if q != p { assert ProcOk(codec, w, q); }
    }
    forall x | x in w.log ensures EntryOk(codec, w', x) { assert EntryOk(codec, w, x); }
  }

  lemma NotYetStored(codec: Codec, w: World, p: nat, e: Evidence)
    requires Inv(codec, w) && p in w.procs
    requires MayWrite(codec, w.procs[p], e)
    ensures forall x: Evidence :: x.id == e.id ==> !Stored(codec, w, x)
    ensures forall x :: x in w.log && x.op.Id() == e.id ==> !x.outcome.Claimed?
  {
    assert ProcOk(codec, w, p);
    forall x | x in w.log && x.op.Id() == e.id ensures !x.outcome.Claimed? { assert EntryOk(codec, w, x); }
  }

  lemma StepKeepsInv(codec: Codec, w: World, p: nat, choice: Choice)
    requires codec.Sound() && Inv(codec, w)
    ensures Inv(codec, Next(codec, w, p, choice))
  {
    if p !in w.procs {
      MoveKeepsInv(codec, w, p, Next(codec, w, p, choice));
    } else if choice.crashes {
      LeaveKeepsInv(codec, w, p);
    } else if choice.refused {
      var op := match w.procs[p] case Waiting(op) => op case Locked(op) => op
                case Creating(e) => Claim(e) case Writing(e, _) => Claim(e);
      FinishKeepsInv(codec, w, p, op, Unavailable);
    } else {
      assert ProcOk(codec, w, p);
      ProgressKeepsInv(codec, w, p, choice);
    }
  }

  /** Answering from what is on disk tells the truth about it. */
  lemma AnswerKeepsInv(codec: Codec, w: World, p: nat, op: Op)
    requires codec.Sound() && Inv(codec, w) && p in w.procs
    requires op.Read? || !Look(codec, w.files, op.Id()).Absent?
    ensures Inv(codec, Finish(w, p, op, Answer(op, Look(codec, w.files, op.Id()))))
  {
    if op.Id() in w.files { ReadableIsComplete(codec, w, op.Id()); }
    FinishKeepsInv(codec, w, p, op, Answer(op, Look(codec, w.files, op.Id())));
  }

  lemma ProgressKeepsInv(codec: Codec, w: World, p: nat, choice: Choice)
    requires codec.Sound() && Inv(codec, w) && p in w.procs && ProcOk(codec, w, p) && !choice.crashes && !choice.refused
    ensures Inv(codec, Next(codec, w, p, choice))
  {
    match w.procs[p]
    case Waiting(op) =>
      if w.lock.None? { MoveKeepsInv(codec, w, p, Next(codec, w, p, choice)); }
    case Locked(op) =>
      if op.Claim? && Look(codec, w.files, op.Id()).Absent? {
        MoveKeepsInv(codec, w, p, Next(codec, w, p, choice));
      } else {
        AnswerKeepsInv(codec, w, p, op);
      }
    case Creating(e) =>
      WriteKeepsInv(codec, w, p, e, 0);
    case Writing(e, n) =>
      if n >= |codec.encode(e)| {
        assert codec.encode(e)[..n] == codec.encode(e);
        FinishKeepsInv(codec, w, p, Claim(e), Claimed);
      } else {
        var more := if n + choice.progress <= |codec.encode(e)| then n + choice.progress else |codec.encode(e)|;
        WriteKeepsInv(codec, w, p, e, more);
        assert w.creators[e.id := e] == w.creators;
      }
  }

  lemma {:induction false} RunsKeepInv(codec: Codec, w: World, schedule: seq<Turn>)
    requires codec.Sound() && Inv(codec, w)
    ensures Inv(codec, RunFrom(codec, w, schedule))
  {
    if schedule != [] {
      var front, last := schedule[..|schedule| - 1], schedule[|schedule| - 1];
      RunsKeepInv(codec, w, front);
      StepKeepsInv(codec, RunFrom(codec, w, front), last.process, last.choice);
    }
  }

  /** The evidence a returned outcome vouches for. */
  function Vouched(x: LogEntry): Option<Evidence> {
    match x.outcome
    case Claimed => if x.op.Claim? then Some(x.op.evidence) else None
    case Duplicate(e) => Some(e)
    case Conflict(e) => Some(e)
    case ReadBack(e) => Some(e)
    case Missing => None
    case CorruptRecord => None
    case Unavailable => None
    case AppearedDuringClaim => None
  }

  /**
   * Under every interleaving and every crash: an identity is claimed at most once, every outcome about it
   * vouches for one and the same evidence, and duplicate means equal, conflict means different.
   */
  lemma EvidenceIsWrittenOnce(codec: Codec, schedule: seq<Turn>)
    requires codec.Sound()
    ensures var log := RunFrom(codec, START, schedule).log;
            && ClaimedOnce(log)
            && (forall x, y ::
                  x in log && y in log && x.op.Id() == y.op.Id() && Vouched(x).Some? && Vouched(y).Some? ==>
                    Vouched(x) == Vouched(y))
            && (forall x :: x in log && x.outcome.Duplicate? ==> x.op == Claim(x.outcome.existing))
            && (forall x :: x in log && x.outcome.Conflict? ==> x.op.Claim? && x.op.evidence != x.outcome.existing)
            && (forall x :: x in log ==> !x.outcome.AppearedDuringClaim?)
  {
    RunsKeepInv(codec, START, schedule);
    var w := RunFrom(codec, START, schedule);
    forall x | x in w.log ensures EntryOk(codec, w, x) {}
    hide Stored, RunFrom, ClaimedOnce, ProcOk, RecordsOk;
    forall x, y | x in w.log && y in w.log && x.op.Id() == y.op.Id() && Vouched(x).Some? && Vouched(y).Some?
      ensures Vouched(x) == Vouched(y)
    {
      VouchedIsStored(codec, w, x);
      VouchedIsStored(codec, w, y);
      StoredIsUnique(codec, w, Vouched(x).value, Vouched(y).value);
    }
  }

  lemma VouchedIsStored(codec: Codec, w: World, x: LogEntry)
    requires EntryOk(codec, w, x) && Vouched(x).Some?
    ensures Stored(codec, w, Vouched(x).value) && Vouched(x).value.id == x.op.Id()
  {}

  lemma StoredIsUnique(codec: Codec, w: World, e: Evidence, f: Evidence)
    requires Stored(codec, w, e) && Stored(codec, w, f) && e.id == f.id
    ensures e == f
  {}

  /** What a later call about the id of claimed evidence `e` may return: the truth, or nothing at all. */
  predicate Agrees(x: LogEntry, e: Evidence) {
    || x == LogEntry(Claim(e), Duplicate(e))
    || (x.op.Claim? && x.op.evidence != e && x.outcome == Conflict(e))
    || (x.op.Read? && x.outcome == ReadBack(e))
    || x.outcome.Unavailable?
  }

  predicate WasClaimed(w: World, e: Evidence) { LogEntry(Claim(e), Claimed) in w.log }

  lemma StepAgreesWithClaim(codec: Codec, w: World, p: nat, choice: Choice, e: Evidence)
    requires codec.Sound() && Inv(codec, w) && WasClaimed(w, e)
    ensures var w' := Next(codec, w, p, choice);
            w'.log == w.log || exists x :: w'.log == w.log + [x] && (x.op.Id() == e.id ==> Agrees(x, e))
  {
    assert EntryOk(codec, w, LogEntry(Claim(e), Claimed));
    if p in w.procs {
      assert ProcOk(codec, w, p);
      var w' := Next(codec, w, p, choice);
      if w'.log != w.log {
        var x := w'.log[|w.log|];
        assert w'.log == w.log + [x];
        assert x.op.Id() == e.id ==> Agrees(x, e);
      }
    }
  }

  /** Claimed evidence stays readable: whatever runs, refuses or crashes later, every later answer about it agrees. */
  lemma {:induction false} ClaimedStaysReadable(codec: Codec, w: World, schedule: seq<Turn>, e: Evidence)
    requires codec.Sound() && Inv(codec, w) && WasClaimed(w, e)
    ensures var w' := RunFrom(codec, w, schedule);
            && Look(codec, w'.files, e.id) == Present(e) && w.log <= w'.log
            && forall i :: |w.log| <= i < |w'.log| && w'.log[i].op.Id() == e.id ==> Agrees(w'.log[i], e)
  {
    RunsKeepInv(codec, w, schedule);
    if schedule != [] {
      var front, last := schedule[..|schedule| - 1], schedule[|schedule| - 1];
      ClaimedStaysReadable(codec, w, front, e);
      RunsKeepInv(codec, w, front);
      StepAgreesWithClaim(codec, RunFrom(codec, w, front), last.process, last.choice, e);
    }
    ClaimedIsReadable(codec, RunFrom(codec, w, schedule), e);
    hide Next, Inv, Agrees, Look;
  }

  lemma ClaimedIsReadable(codec: Codec, w: World, e: Evidence)
    requires codec.Sound() && Inv(codec, w) && WasClaimed(w, e)
    ensures Look(codec, w.files, e.id) == Present(e)
  {
    assert EntryOk(codec, w, LogEntry(Claim(e), Claimed));
  }

  /** An unfinished record nobody is writing any more. */
  ghost predicate Abandoned(codec: Codec, w: World, id: string) {
    && id in w.files && Look(codec, w.files, id).Corrupt?
    && forall p :: p in w.procs && w.procs[p].Writing? ==> w.procs[p].evidence.id != id
  }

  /** A write that crashes or is refused midway leaves such a record. */
  lemma StoppedWriteAbandonsRecord(codec: Codec, w: World, p: nat, choice: Choice)
    requires codec.Sound() && Inv(codec, w) && p in w.procs && (choice.crashes || choice.refused)
    requires w.procs[p].Writing? && MayWrite(codec, w.procs[p], w.procs[p].evidence)
    ensures Abandoned(codec, Next(codec, w, p, choice), w.procs[p].evidence.id)
  {}

  predicate FailsClosed(outcome: Outcome) { outcome.CorruptRecord? || outcome.Unavailable? }

  lemma StepKeepsAbandoned(codec: Codec, w: World, p: nat, choice: Choice, id: string)
    requires codec.Sound() && Inv(codec, w) && Abandoned(codec, w, id)
    ensures var w' := Next(codec, w, p, choice);
            && Abandoned(codec, w', id) && w'.files[id] == w.files[id]
            && (w'.log == w.log || exists x :: w'.log == w.log + [x] && (x.op.Id() == id ==> FailsClosed(x.outcome)))
  {
    if p in w.procs {
      assert ProcOk(codec, w, p);
      var w' := Next(codec, w, p, choice);
      if w'.log != w.log {
        var x := w'.log[|w.log|];
        assert w'.log == w.log + [x];
        assert x.op.Id() == id ==> FailsClosed(x.outcome);
      }
    }
  }

  /** From then on the record never changes, and every claim or read of that id fails closed, for ever. */
  lemma {:induction false} AbandonedFailsClosed(codec: Codec, w: World, schedule: seq<Turn>, id: string)
    requires codec.Sound() && Inv(codec, w) && Abandoned(codec, w, id)
    ensures var w' := RunFrom(codec, w, schedule);
            && Abandoned(codec, w', id) && w'.files[id] == w.files[id] && w.log <= w'.log
            && forall i :: |w.log| <= i < |w'.log| && w'.log[i].op.Id() == id ==> FailsClosed(w'.log[i].outcome)
  {
    if schedule != [] {
      var front, last := schedule[..|schedule| - 1], schedule[|schedule| - 1];
      AbandonedFailsClosed(codec, w, front, id);
      RunsKeepInv(codec, w, front);
      StepKeepsAbandoned(codec, RunFrom(codec, w, front), last.process, last.choice, id);
      hide Next, Inv, Abandoned;
    }
  }

  function Steps(codec: Codec, w: World, p: nat, choice: Choice, n: nat): World
    decreases n
  {
    if n == 0 then w else Steps(codec, Next(codec, w, p, choice), p, choice, n - 1)
  }

  /** Left alone with the lock, the steps of a claim are the whole claim: same files, same outcome, lock released. */
  lemma UndisturbedClaimIsAtomic(codec: Codec, w: World, p: nat, e: Evidence)
    requires p in w.procs && w.procs[p] == Locked(Claim(e)) && w.lock == Some(p) && codec.encode(e) != ""
    ensures var go := Choice(Claim(e), false, false, |codec.encode(e)|);
            var end := Steps(codec, w, p, go, if Look(codec, w.files, e.id).Absent? then 4 else 1);
            && (end.files, end.log) == (ClaimEffect(codec, w.files, e, NoFault).0,
                                        w.log + [LogEntry(Claim(e), ClaimEffect(codec, w.files, e, NoFault).1)])
            && end.procs == w.procs - {p} && end.lock == None
  {
    var payload := codec.encode(e);
    var go := Choice(Claim(e), false, false, |payload|);
    if Look(codec, w.files, e.id).Absent? {
      var a := Next(codec, w, p, go);
      assert a == w.(procs := w.procs[p := Creating(e)]);
      var b := Next(codec, a, p, go);
      assert b.procs[p] == Writing(e, 0) && b.files == w.files[e.id := ""];
      var c := Next(codec, b, p, go);
      assert payload[..|payload|] == payload;
      assert c.procs[p] == Writing(e, |payload|) && c.files == w.files[e.id := payload];
      var d := Next(codec, c, p, go);
      assert d.procs == w.procs - {p};
      StepsUnfold(codec, w, p, go);
    } else {
      assert Steps(codec, Next(codec, w, p, go), p, go, 0) == Next(codec, w, p, go);
    }
  }

  lemma StepsUnfold(codec: Codec, w: World, p: nat, choice: Choice)
    ensures Steps(codec, w, p, choice, 4) ==
            Next(codec, Next(codec, Next(codec, Next(codec, w, p, choice), p, choice), p, choice), p, choice)
  {}
}
