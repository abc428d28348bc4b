/**
 Any number of clients of the SQL stores at once, each between the statements of its own call: the history of
 all their answers is one the atomic reference store gives, in the order in which the answering statements ran.
 */
module SqlClients {
  import opened Types
  import opened Rows
  import opened Sql
  import Contract

  datatype Call =
    | BeginCall(op: Operation, o: BeginOptions)
    | CompleteCall(id: Id, fence: int, payload: Payload, now: int)
    | AbandonCall(id: Id, fence: int)
    | PurgeCall(now: int)
    | RemoveCall(id: Id)

  datatype Answer = Began(outcome: BeginOutcome) | Settled(status: CompleteStatus) | Swept

  /** The call as one atomic operation of the reference store. */
  function Atomic(rows: map<Id, Record>, c: Call): (Answer, map<Id, Record>) {
    match c
    case BeginCall(op, o) =>
      var (out, row) := Contract.Begin(Get(rows, op.id), op, o);
      (Began(out), Put(rows, op.id, row))
    case CompleteCall(id, fence, p, now) =>
      var (st, row) := Contract.Complete(Get(rows, id), fence, p, now);
      (Settled(st), Put(rows, id, row))
    case AbandonCall(id, fence) =>
      var (st, row) := Contract.Abandon(Get(rows, id), fence);
      (Settled(st), Put(rows, id, row))
    case PurgeCall(now) => (Swept, Contract.Purge(rows, now))
    case RemoveCall(id) => (Swept, rows - {id})
  }

  datatype Entry = Entry(call: Call, answer: Answer)

  /** The rows of the reference store after the calls of a history, one by one. */
  function Replay(h: seq<Entry>): map<Id, Record> {
    if h == [] then map[] else Atomic(Replay(h[..|h| - 1]), h[|h| - 1].call).1
  }

  /** Every answer of the history is the one the reference store gives at that point. */
  ghost predicate Linear(h: seq<Entry>) {
    forall i :: 0 <= i < |h| ==> h[i].answer == Atomic(Replay(h[..i]), h[i].call).0
  }

  lemma LinearAppend(h: seq<Entry>, e: Entry)
    requires Linear(h)
    ensures Replay(h + [e]) == Atomic(Replay(h), e.call).1
    ensures Linear(h + [e]) <==> e.answer == Atomic(Replay(h), e.call).0
  {
    var g := h + [e];
    assert g[..|h|] == h;
    assert forall i :: 0 <= i < |h| ==> g[..i] == h[..i];
  }

  /**
   Where a client is in its call: about to write, or refused and about to read. A refused client remembers
   (as ghost knowledge) the lifetime of the row that refused it and whether that row had issued its fence.
   */
  datatype Pc =
    | Writing(call: Call, attempt: nat)
    | Reading(call: Call, attempt: nat, life: nat, issued: bool)
    | Returned(call: Call, answer: Answer)
    | GaveUp(call: Call)

  datatype Sys = Sys(table: Table, life: map<Id, nat>, pcs: map<nat, Pc>, history: seq<Entry>)

  datatype Event = Invoke(c: nat, call: Call) | Go(c: nat)

  const INIT := Sys(map[], map[], map[], [])

  function IdOf(c: Call): Id
    requires !c.PurgeCall?
  {
    match c
    case BeginCall(op, _) => op.id
    case CompleteCall(id, _, _, _) => id
    case AbandonCall(id, _) => id
    case RemoveCall(id) => id
  }

  function StatementOf(c: Call): Statement {
    match c
    case BeginCall(op, o) => BeginStmt(op, o)
    case CompleteCall(id, fence, p, now) => CompleteStmt(id, fence, now, p)
    case AbandonCall(id, fence) => AbandonStmt(id, fence)
    case PurgeCall(now) => PurgeStmt(now)
    case RemoveCall(id) => RemoveStmt(id)
  }

  /** A settling call's fence was issued in the lifetime of the row that is there now. */
  predicate Issued(t: Table, c: Call) {
    match c
    case CompleteCall(id, fence, _, _) => id in t && fence <= t[id].fence
    case AbandonCall(id, fence) => id in t && fence <= t[id].fence
    case _ => false
  }

  function Life(s: Sys, k: Id): nat { if k in s.life then s.life[k] else 0 }

  function NextLife(s: Sys, t: Table): map<Id, nat> {
    map k | k in s.table.Keys + s.life.Keys :: Life(s, k) + (if k in s.table && k !in t then 1 else 0)
  }

  /** What the write answers when it is not refused. */
  function WriteAnswer(c: Call, fence: Option<int>): Option<Answer> {
    match c
    case BeginCall(_, _) => if fence.Some? then Some(Began(Acquired(fence.value))) else None
    case CompleteCall(_, _, _, _) => if fence.Some? then Some(Settled(Ok)) else None
    case AbandonCall(_, _) => if fence.Some? then Some(Settled(Ok)) else None
    case _ => Some(Swept)
  }

  function ReadAnswer(c: Call, t: Table): Option<Answer> {
    match c
    case BeginCall(op, o) =>
      var out := ClassifyBegin(Get(t, op.id), op, o.now);
      if out.Some? then Some(Began(out.value)) else None
    case CompleteCall(id, fence, _, now) => Some(Settled(ClassifyComplete(Get(t, id), fence, now)))
    case AbandonCall(id, fence) => Some(Settled(ClassifyAbandon(Get(t, id), fence)))
    case _ => None
  }

  function Return(s: Sys, c: nat, call: Call, a: Answer): Sys {
    s.(pcs := s.pcs[c := Returned(call, a)], history := s.history + [Entry(call, a)])
  }

  function Write(s: Sys, c: nat, call: Call, attempt: nat): Sys {
    var (t, fence) := Exec(s.table, StatementOf(call));
    var s' := s.(table := t, life := NextLife(s, t));
    var a := WriteAnswer(call, fence);
    if a.Some? then Return(s', c, call, a.value)
    else if call.PurgeCall? then s'
    else s'.(pcs := s.pcs[c := Reading(call, attempt, Life(s, IdOf(call)), Issued(s.table, call))])
  }

  function Read(s: Sys, c: nat, call: Call, attempt: nat): Sys {
    var a := ReadAnswer(call, s.table);
    if a.Some? then Return(s, c, call, a.value)
    else s.(pcs := s.pcs[c := if attempt < 2 then Writing(call, attempt + 1) else GaveUp(call)])
  }

  /** One step; a client only starts a call when it is not inside one. */
  function Apply(s: Sys, ev: Event): Sys {
    match ev
    case Invoke(c, call) =>
      if c in s.pcs && (s.pcs[c].Writing? || s.pcs[c].Reading?) then s
      else s.(pcs := s.pcs[c := Writing(call, 0)])
    case Go(c) =>
      if c !in s.pcs then s
      else match s.pcs[c]
           case Writing(call, attempt) => Write(s, c, call, attempt)
           case Reading(call, attempt, _, _) => Read(s, c, call, attempt)
           case _ => s
  }

  function Run(s: Sys, evs: seq<Event>): Sys
    decreases |evs|
  {
    if evs == [] then s else Run(Apply(s, evs[0]), evs[1..])
  }

  /** The read of a refused settling call finds a row its own write would now have applied to. */
  predicate Torn(s: Sys, ev: Event) {
    && ev.Go? && ev.c in s.pcs && s.pcs[ev.c].Reading?
    && match s.pcs[ev.c].call
       case CompleteCall(id, fence, _, now) => TornComplete(Get(s.table, id), fence, now)
       case AbandonCall(id, fence) => TornAbandon(Get(s.table, id), fence)
       case _ => false
  }

  /**
   A refused settling call reads in the lifetime that issued its fence and refused its write, or finds no row.
   */
  predicate InLife(s: Sys, ev: Event) {
    ev.Go? && ev.c in s.pcs && s.pcs[ev.c].Reading?
    && (s.pcs[ev.c].call.CompleteCall? || s.pcs[ev.c].call.AbandonCall?) ==>
      var pc := s.pcs[ev.c];
      || IdOf(pc.call) !in s.table
      || (pc.issued && pc.life == Life(s, IdOf(pc.call)))
  }

  ghost predicate ReadingOk(s: Sys, pc: Pc) {
    pc.Reading? ==>
      match pc.call
      case CompleteCall(id, fence, _, now) =>
        pc.life <= Life(s, id) && (pc.issued && pc.life == Life(s, id) ==> CompleteRefused(s.table, id, fence, now))
      case AbandonCall(id, fence) =>
        pc.life <= Life(s, id) && (pc.issued && pc.life == Life(s, id) ==> AbandonRefused(s.table, id, fence))
      case _ => pc.call.BeginCall?
  }

  /** The table is the reference store's after the history of answers, and it would have given the same answers. */
  ghost predicate Faithful(s: Sys) { Abs(s.table) == Replay(s.history) && Linear(s.history) }

  ghost predicate Inv(s: Sys) {
    && Wf(s.table)
    && Faithful(s)
    && forall c :: c in s.pcs ==> ReadingOk(s, s.pcs[c])
  }

  /** A statement that answers is the reference operation. */
  lemma WriteExact(t: Table, call: Call)
    requires Wf(t)
    ensures var (t', fence) := Exec(t, StatementOf(call));
            var a := WriteAnswer(call, fence);
            && Wf(t')
            && (a.Some? ==> Atomic(Abs(t), call) == (a.value, Abs(t')))
            && (a.None? ==> t' == t && !call.PurgeCall? && !call.RemoveCall?)
  {
    WfExec(t, StatementOf(call));
    match call
    case BeginCall(op, o) => BeginExact(t, op, o);
    case CompleteCall(id, fence, p, now) => CompleteExact(t, id, fence, p, now);
    case AbandonCall(id, fence) => AbandonExact(t, id, fence);
    case PurgeCall(now) => assert Abs(Exec(t, PurgeStmt(now)).0) == Contract.Purge(Abs(t), now);
    case RemoveCall(id) => assert Abs(t - {id}) == Abs(t) - {id};
  }

  /** A read that answers is the reference operation exactly when it is not torn. */
  lemma ReadExact(t: Table, call: Call)
    requires Wf(t) && ReadAnswer(call, t).Some?
    ensures Atomic(Abs(t), call) == (ReadAnswer(call, t).value, Abs(t)) <==>
            !(match call
              case CompleteCall(id, fence, _, now) => TornComplete(Get(t, id), fence, now)
              case AbandonCall(id, fence) => TornAbandon(Get(t, id), fence)
              case _ => false)
  {
    match call
    case BeginCall(op, o) =>
      ClassifyBeginExact(t, op, o);
      PutGet(Abs(t), op.id);
    case CompleteCall(id, fence, p, now) =>
      ClassifyCompleteExact(t, id, fence, p, now);
      PutGet(Abs(t), id);
      PutSame(Abs(t), id, Contract.Complete(Get(Abs(t), id), fence, p, now).1);
    case AbandonCall(id, fence) =>
      ClassifyAbandonExact(t, id, fence);
      PutGet(Abs(t), id);
      PutSame(Abs(t), id, Contract.Abandon(Get(Abs(t), id), fence).1);
  }

  lemma PutSame<K, V>(m: map<K, V>, k: K, v: Option<V>)
    ensures Put(m, k, v) == m ==> Get(m, k) == v
  {
  }

  /** A statement of one client leaves every other client's refusal standing within the lifetime. */
  lemma ReadingKept(s: Sys, st: Statement, pc: Pc)
    requires ReadingOk(s, pc)
    ensures var t := Exec(s.table, st).0;
            ReadingOk(s.(table := t, life := NextLife(s, t)), pc)
  {
    if pc.Reading? && !pc.call.BeginCall? {
      var id := IdOf(pc.call);
      if id in s.table && id in Exec(s.table, st).0 {
        match pc.call
        case CompleteCall(_, fence, _, now) => RefusalStands(s.table, st, id, fence, now);
        case AbandonCall(_, fence) => RefusalStands(s.table, st, id, fence, 0);
      }
    }
  }

  lemma InvWrite(s: Sys, c: nat)
    requires Inv(s) && c in s.pcs && s.pcs[c].Writing?
    ensures Inv(Apply(s, Go(c)))
  {
    var call := s.pcs[c].call;
    var s' := Apply(s, Go(c));
    var (t, fence) := Exec(s.table, StatementOf(call));
    WriteExact(s.table, call);
    var a := WriteAnswer(call, fence);
    if a.Some? { LinearAppend(s.history, Entry(call, a.value)); }
    forall d | d in s'.pcs ensures ReadingOk(s', s'.pcs[d]) {
      if d != c { ReadingKept(s, StatementOf(call), s.pcs[d]); }
    }
  }

  /** The step of a client at its read is an atomic reference operation exactly when the read is not torn. */
  lemma ReadStep(s: Sys, c: nat)
    requires Inv(s) && c in s.pcs && s.pcs[c].Reading?
    ensures Faithful(Apply(s, Go(c))) <==> !Torn(s, Go(c))
    ensures Faithful(Apply(s, Go(c))) ==> Inv(Apply(s, Go(c)))
  {
    var call := s.pcs[c].call;
    var s' := Apply(s, Go(c));
    var a := ReadAnswer(call, s.table);
    assert ReadingOk(s, s.pcs[c]);
    if a.Some? {
      ReadExact(s.table, call);
      LinearAppend(s.history, Entry(call, a.value));
    }
    forall d | d in s'.pcs ensures ReadingOk(s', s'.pcs[d]) {
      if d != c { assert ReadingOk(s, s.pcs[d]); }
    }
  }

  /** A read in the lifetime that refused the write, or of no row, is never torn. */
  lemma InLifeNotTorn(s: Sys, ev: Event)
    requires Inv(s) && InLife(s, ev)
    ensures !Torn(s, ev)
  {
    if ev.Go? && ev.c in s.pcs { assert ReadingOk(s, s.pcs[ev.c]); }
  }

  lemma InvStep(s: Sys, ev: Event)
    requires Inv(s)
    ensures Faithful(Apply(s, ev)) <==> !Torn(s, ev)
    ensures !Torn(s, ev) ==> Inv(Apply(s, ev))
  {
    match ev
    case Invoke(_, _) =>
    case Go(c) =>
      if c in s.pcs && s.pcs[c].Writing? { InvWrite(s, c); }
      else if c in s.pcs && s.pcs[c].Reading? { ReadStep(s, c); }
  }

  predicate UntornRun(s: Sys, evs: seq<Event>)
    decreases |evs|
  {
    evs == [] || (!Torn(s, evs[0]) && UntornRun(Apply(s, evs[0]), evs[1..]))
  }

  lemma {:induction false} InvRun(s: Sys, evs: seq<Event>)
    requires Inv(s) && UntornRun(s, evs)
    ensures Inv(Run(s, evs))
    decreases |evs|
  {
    if evs != [] {
      InvStep(s, evs[0]);
      InvRun(Apply(s, evs[0]), evs[1..]);
    }
  }

  /** In every state the run goes through, the answers so far are those of the reference store. */
  ghost predicate FaithfulRun(s: Sys, evs: seq<Event>) {
    forall n :: 0 <= n <= |evs| ==> Faithful(Run(s, evs[..n]))
  }

  lemma FaithfulCons(s: Sys, evs: seq<Event>)
    requires evs != []
    ensures FaithfulRun(s, evs) <==> Faithful(s) && FaithfulRun(Apply(s, evs[0]), evs[1..])
  {
    var t := Apply(s, evs[0]);
    forall n | 0 <= n < |evs| ensures Run(s, evs[..n + 1]) == Run(t, evs[1..][..n]) {
      assert evs[..n + 1][1..] == evs[1..][..n];
    }
    if FaithfulRun(s, evs) {
      assert Run(s, evs[..0]) == s;
      forall n | 0 <= n <= |evs[1..]| ensures Faithful(Run(t, evs[1..][..n])) {
        assert Faithful(Run(s, evs[..n + 1]));
      }
    } else {
      var n :| 0 <= n <= |evs| && !Faithful(Run(s, evs[..n]));
      if n > 0 { assert Run(s, evs[..n]) == Run(t, evs[1..][..n - 1]); }
    }
  }

  lemma {:induction false} FaithfulExact(s: Sys, evs: seq<Event>)
    requires Inv(s)
    ensures FaithfulRun(s, evs) <==> UntornRun(s, evs)
    decreases |evs|
  {
    if evs == [] {
      assert FaithfulRun(s, evs);
    } else {
      FaithfulCons(s, evs);
      InvStep(s, evs[0]);
      var t := Apply(s, evs[0]);
      if Torn(s, evs[0]) {
        assert Run(t, evs[1..][..0]) == t;
        assert !FaithfulRun(t, evs[1..]);
      } else {
        FaithfulExact(t, evs[1..]);
      }
    }
  }

  /**
   Linearizability of whole runs at their answering statements. The history gains a client's entry in the very
   step that returns its answer, so each operation takes effect between its invocation and its return; throughout
   the run this history is one the reference store gives if and only if no read of a refused settling call is torn.
   */
  lemma Linearizable(evs: seq<Event>)
    ensures FaithfulRun(INIT, evs) <==> UntornRun(INIT, evs)
  {
    FaithfulExact(INIT, evs);
  }

  predicate InLifeRun(s: Sys, evs: seq<Event>)
    decreases |evs|
  {
    evs == [] || (InLife(s, evs[0]) && InLifeRun(Apply(s, evs[0]), evs[1..]))
  }

  lemma {:induction false} InLifeUntorn(s: Sys, evs: seq<Event>)
    requires Inv(s) && InLifeRun(s, evs)
    ensures UntornRun(s, evs)
    decreases |evs|
  {
    if evs != [] {
      InLifeNotTorn(s, evs[0]);
      InvStep(s, evs[0]);
      InLifeUntorn(Apply(s, evs[0]), evs[1..]);
    }
  }

  /** In particular when refused settling calls read in the lifetime of their fence, or find no row. */
  lemma LinearizableInLife(evs: seq<Event>)
    requires InLifeRun(INIT, evs)
    ensures FaithfulRun(INIT, evs)
  {
    InLifeUntorn(INIT, evs);
    Linearizable(evs);
  }

  /**
   A client that is not inside a call starts any; its write answers as the reference store does, or is refused
   without a trace and then read up.
   */
  lemma CallProceeds(s: Sys, c: nat, call: Call)
    requires Inv(s) && !(c in s.pcs && (s.pcs[c].Writing? || s.pcs[c].Reading?))
    ensures var t := Apply(s, Invoke(c, call));
            var u := Apply(t, Go(c));
            && t == s.(pcs := s.pcs[c := Writing(call, 0)])
            && (if u.pcs[c].Returned? then (u.pcs[c].answer, Abs(u.table)) == Atomic(Abs(s.table), call)
                else u.pcs[c].Reading? && u.pcs[c].call == call && u.table == s.table && u.history == s.history)
  {
    WriteExact(s.table, call);
  }

  /** A refused call that reads is answered, except a begin that finds a row it could claim by now, or none. */
  lemma ReadProceeds(s: Sys, c: nat)
    requires Inv(s) && c in s.pcs && s.pcs[c].Reading?
    ensures var t, call := Apply(s, Go(c)), s.pcs[c].call;
            && t.table == s.table
            && (t.pcs[c].Returned? <==> !(call.BeginCall? && Exec(s.table, StatementOf(call)).1.Some?))
  {
    assert ReadingOk(s, s.pcs[c]);
    if s.pcs[c].call.BeginCall? { ClassifyBeginExact(s.table, s.pcs[c].call.op, s.pcs[c].call.o); }
  }

  predicate TriesOk(pc: Pc) {
    && (pc.Writing? ==> pc.attempt < 3)
    && (pc.Reading? ==> pc.attempt < 3 && !pc.call.PurgeCall? && !pc.call.RemoveCall?)
  }

  /** A call gives up only when the read of its third try left it nothing to answer. */
  lemma ThirdTry(s: Sys, ev: Event)
    requires forall c :: c in s.pcs ==> TriesOk(s.pcs[c])
    ensures var s' := Apply(s, ev);
            && (forall c :: c in s'.pcs ==> TriesOk(s'.pcs[c]))
            && forall c :: c in s'.pcs && s'.pcs[c].GaveUp? && !(c in s.pcs && s.pcs[c].GaveUp?) ==>
                 ev == Go(c) && c in s.pcs && s.pcs[c].Reading? && s.pcs[c].attempt + 1 == 3
                 && s.pcs[c].call.BeginCall?
  {
    var s' := Apply(s, ev);
    forall c | c in s'.pcs && c in s.pcs ensures TriesOk(s'.pcs[c]) { assert TriesOk(s.pcs[c]); }
  }

  /** Only the step that returns an answer extends the history, by exactly that call and answer. */
  lemma OneEntryPerReturn(s: Sys, ev: Event)
    ensures var s' := Apply(s, ev);
            if ev.Go? && ev.c in s.pcs && !s.pcs[ev.c].Returned? && s'.pcs[ev.c].Returned? then
              s'.history == s.history + [Entry(s.pcs[ev.c].call, s'.pcs[ev.c].answer)]
              && s'.pcs[ev.c].call == s.pcs[ev.c].call
            else s'.history == s.history
  {
  }
}
