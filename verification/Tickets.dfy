/**
 * The report slots under concurrency: any number of parses share one instance, and every access
 * to the shared table is one atomic step of one of them.
 */
module Tickets {
  import opened Common
  import opened Expand

  /** Where a parse frame is. Only the innermost frame of a parse is ever past `Waiting`. */
  datatype Phase =
    | Waiting                                    // for the parse nested in it
    | Running
    | Raising(report: Report)                    // a directive is failing, its report not yet recorded
    | Reported(report: Report)                   // the parse returned the error of a directive
    | Broken(code: string, detail: string)       // the parse returned an error of the grammar
    | Finished

  datatype Frame = Frame(ticket: Option<nat>, phase: Phase)

  /** `origin` is a history variable: what the parse first raised. The protocol never reads it. */
  datatype Parse = Parse(frames: seq<Frame>, origin: Option<Report>) {
    predicate Nested() { |frames| >= 2 }

    function Top(): Frame
      requires frames != []
    {
      frames[|frames| - 1]
    }

    function WithTop(phase: Phase): Parse
      requires frames != []
    {
      Parse(frames[..|frames| - 1] + [Top().(phase := phase)], origin)
    }

    function Popped(phase: Phase): Parse
      requires Nested()
    {
      Parse(frames[..|frames| - 1], origin).WithTop(phase)
    }
  }

  datatype State = State(slots: map<nat, Report>, next: nat, parses: map<nat, Parse>)

  datatype Action =
    | Start(id: nat)
    | Nest(id: nat)                              // mint a ticket and parse a source under it
    | Fail(id: nat, report: Report)              // a directive of the innermost frame fails
    | Record(id: nat)                            // its report goes into the frame's slot
    | Break(id: nat, code: string, detail: string)
    | Finish(id: nat)
    | Take(id: nat, path: string)                // the enclosing load takes the slot and raises again
    | Discard(id: nat)                           // the enclosing load frees the slot of a success
    | End(id: nat)

  const INITIAL: State := State(map[], 0, map[])

  /** The code an enclosing load reads off a nested error. */
  function CodeOf(phase: Phase): string
    requires phase.Reported? || phase.Broken?
  {
    var code := if phase.Reported? then phase.report.Code() else phase.code;
    if code == "" then "unexpected" else code
  }

  /** What the enclosing load raises: the slot's report if its code came back, else a summary. */
  function Retaken(slots: map<nat, Report>, frame: Frame, path: string): Report
    requires frame.phase.Reported? || frame.phase.Broken?
  {
    var code := CodeOf(frame.phase);
    var detail := if frame.phase.Broken? then frame.phase.detail else "";
    if frame.ticket.Some? && frame.ticket.value in slots && slots[frame.ticket.value].Code() == code
    then slots[frame.ticket.value]
    else Unprocessed(code, path, detail)
  }

  predicate Live(s: State, id: nat) { id in s.parses && s.parses[id].frames != [] }

  predicate Enabled(s: State, a: Action) {
    if a.Start? then a.id !in s.parses
    else
      Live(s, a.id) &&
      var top := s.parses[a.id].Top();
      match a
      case Nest(_) => top.phase.Running?
      case Fail(_, report) => top.phase.Running? && report.Code() != "" && !report.Grammar?
      case Record(_) => top.phase.Raising?
      case Break(_, _, _) => top.phase.Running?
      case Finish(_) => top.phase.Running?
      case Take(_, _) => s.parses[a.id].Nested() && (top.phase.Reported? || top.phase.Broken?)
      case Discard(_) => s.parses[a.id].Nested() && top.phase.Finished?
      case End(_) => !s.parses[a.id].Nested() && (top.phase.Reported? || top.phase.Broken? || top.phase.Finished?)
      case Start(_) => false
  }

  function Apply(s: State, a: Action): State
    requires Enabled(s, a)
  {
    if a.Start? then s.(parses := s.parses[a.id := Parse([Frame(None, Running)], None)])
    else
      var p := s.parses[a.id];
      var top := p.Top();
      match a
      case Nest(id) =>
        var nested := p.WithTop(Waiting);
        s.(next := s.next + 1,
           parses := s.parses[id := nested.(frames := nested.frames + [Frame(Some(s.next), Running)])])
      case Fail(id, report) =>
        s.(parses := s.parses[id := p.WithTop(Raising(report)).(origin := Some(report))])
      case Record(id) =>
        var report := top.phase.report;
        s.(slots := if top.ticket.Some? then s.slots[top.ticket.value := report] else s.slots,
           parses := s.parses[id := p.WithTop(Reported(report))])
      case Break(id, code, detail) =>
        s.(parses := s.parses[id := p.WithTop(Broken(code, detail))])
      case Finish(id) =>
        s.(parses := s.parses[id := p.WithTop(Finished)])
      case Take(id, path) =>
        var report := Retaken(s.slots, top, path);
        var origin := if top.phase.Broken? then Some(report) else p.origin;
        s.(slots := if top.ticket.Some? then s.slots - {top.ticket.value} else s.slots,
           parses := s.parses[id := p.Popped(Raising(report)).(origin := origin)])
      case Discard(id) =>
        s.(slots := if top.ticket.Some? then s.slots - {top.ticket.value} else s.slots,
           parses := s.parses[id := p.Popped(Running)])
      case End(id) =>
        s.(parses := s.parses - {id})
  }

  // ----- the invariant -----

  ghost predicate HasFrame(s: State, id: nat, i: nat) {
    id in s.parses && i < |s.parses[id].frames|
  }

  ghost function FrameAt(s: State, id: nat, i: nat): Frame
    requires HasFrame(s, id, i)
  {
    s.parses[id].frames[i]
  }

  /** No two live frames, of one parse or of two, share a ticket. */
  ghost predicate DistinctTickets(s: State) {
    forall p, i, q, j | HasFrame(s, p, i) && HasFrame(s, q, j) ::
      FrameAt(s, p, i).ticket.Some? && FrameAt(s, p, i).ticket == FrameAt(s, q, j).ticket ==> p == q && i == j
  }

  /** One parse: who has a ticket, who waits, and what its innermost frame says of the origin. */
  ghost predicate ParseOk(p: Parse, next: nat) {
    && p.frames != []
    && (forall i :: 0 <= i < |p.frames| ==> (p.frames[i].ticket.None? <==> i == 0))
    && (forall i :: 1 <= i < |p.frames| ==> p.frames[i].ticket.value < next)
    && (forall i :: 0 <= i < |p.frames| ==> (p.frames[i].phase.Waiting? <==> i < |p.frames| - 1))
    && var phase := p.Top().phase;
    && (p.origin.Some? <==> phase.Raising? || phase.Reported?)
    && (p.origin.Some? ==> p.origin.value == phase.report && phase.report.Code() != "")
  }

  /** A slot belongs to the innermost frame of a live parse, and holds what that frame reported. */
  ghost predicate Owned(s: State, t: nat, id: nat) {
    && t in s.slots && Live(s, id)
    && s.parses[id].Top() == Frame(Some(t), Reported(s.slots[t]))
  }

  ghost predicate Inv(s: State) {
    && DistinctTickets(s)
    && (forall id :: id in s.parses ==> ParseOk(s.parses[id], s.next))
    && (forall t :: t in s.slots ==> exists id :: Owned(s, t, id))
    && (forall id :: Live(s, id) ==>
          var top := s.parses[id].Top();
          top.phase.Reported? && top.ticket.Some? ==> Owned(s, top.ticket.value, id))
  }

  lemma InvInit()
    ensures Inv(INITIAL)
  {
  }

  /** A step mints at most one ticket, and moves none. */
  lemma TicketsKept(s: State, a: Action, p: nat, i: nat)
    requires Inv(s) && Enabled(s, a) && HasFrame(Apply(s, a), p, i)
    ensures FrameAt(Apply(s, a), p, i).ticket == Some(s.next) ==>
              a == Nest(p) && i == |Apply(s, a).parses[p].frames| - 1
    ensures FrameAt(Apply(s, a), p, i).ticket.Some? && FrameAt(Apply(s, a), p, i).ticket != Some(s.next) ==>
              HasFrame(s, p, i) && FrameAt(s, p, i).ticket == FrameAt(Apply(s, a), p, i).ticket
  {
    if p in s.parses {
      assert ParseOk(s.parses[p], s.next);
      if p != a.id {
        assert FrameAt(Apply(s, a), p, i) == FrameAt(s, p, i);
      } else if i < |s.parses[p].frames| {
        assert FrameAt(Apply(s, a), p, i).ticket == FrameAt(s, p, i).ticket;
      }
    }
  }

  lemma DistinctKept(s: State, a: Action)
    requires Inv(s) && Enabled(s, a)
    ensures DistinctTickets(Apply(s, a))
  {
    var s' := Apply(s, a);
    forall p, i, q, j | HasFrame(s', p, i) && HasFrame(s', q, j)
      ensures FrameAt(s', p, i).ticket.Some? && FrameAt(s', p, i).ticket == FrameAt(s', q, j).ticket ==>
                p == q && i == j
    {
      TicketsKept(s, a, p, i);
      TicketsKept(s, a, q, j);
    }
  }

  lemma ParsesKept(s: State, a: Action)
    requires Inv(s) && Enabled(s, a)
    ensures forall id :: id in Apply(s, a).parses ==> ParseOk(Apply(s, a).parses[id], Apply(s, a).next)
  {
    var s' := Apply(s, a);
    forall id | id in s'.parses && id != a.id ensures ParseOk(s'.parses[id], s'.next) {
      assert s'.parses[id] == s.parses[id] && ParseOk(s.parses[id], s.next);
    }
    if a.id in s'.parses {
      ParseKept(s, a);
    }
  }

  /** What a phase may say, given the parse's origin. */
  ghost predicate Speaks(phase: Phase, origin: Option<Report>) {
    && !phase.Waiting?
    && (origin.Some? <==> phase.Raising? || phase.Reported?)
    && (origin.Some? ==> origin.value == phase.report && phase.report.Code() != "")
  }

  lemma WithTopOk(p: Parse, next: nat, phase: Phase, origin: Option<Report>)
    requires ParseOk(p, next) && Speaks(phase, origin)
    ensures ParseOk(p.WithTop(phase).(origin := origin), next)
  {
  }

  lemma PoppedOk(p: Parse, next: nat, phase: Phase, origin: Option<Report>)
    requires ParseOk(p, next) && p.Nested() && Speaks(phase, origin)
    ensures ParseOk(p.Popped(phase).(origin := origin), next)
  {
  }

  lemma NestedOk(p: Parse, next: nat)
    requires ParseOk(p, next) && p.Top().phase.Running?
    ensures var waiting := p.WithTop(Waiting);
            ParseOk(waiting.(frames := waiting.frames + [Frame(Some(next), Running)]), next + 1)
  {
  }

  lemma ParseKept(s: State, a: Action)
    requires Inv(s) && Enabled(s, a) && a.id in Apply(s, a).parses
    ensures ParseOk(Apply(s, a).parses[a.id], Apply(s, a).next)
  {
    if !a.Start? {
      var p := s.parses[a.id];
      assert ParseOk(p, s.next);
      match a
      case Nest(_) => NestedOk(p, s.next);
      case Fail(_, report) => WithTopOk(p, s.next, Raising(report), Some(report));
      case Record(_) => WithTopOk(p, s.next, Reported(p.Top().phase.report), p.origin);
      case Break(_, code, detail) => WithTopOk(p, s.next, Broken(code, detail), p.origin);
      case Finish(_) => WithTopOk(p, s.next, Finished, p.origin);
      case Discard(_) => PoppedOk(p, s.next, Running, p.origin);
      case Take(id, path) =>
        if p.Top().phase.Reported? { TakeYieldsOrigin(s, id, path); }
        var report := Retaken(s.slots, p.Top(), path);
        PoppedOk(p, s.next, Raising(report), Some(report));
      case End(_) =>
    }
  }

  /** The slot an enclosing load takes holds what the nested parse reported; the code test never rejects it. */
  lemma TakeYieldsOrigin(s: State, id: nat, path: string)
    requires Inv(s) && Live(s, id) && s.parses[id].Nested() && s.parses[id].Top().phase.Reported?
    ensures s.parses[id].origin == Some(Retaken(s.slots, s.parses[id].Top(), path))
  {
    assert ParseOk(s.parses[id], s.next);
  }

  lemma TopTicketsDiffer(s: State, id: nat, other: nat)
    requires Inv(s) && Live(s, id) && Live(s, other) && id != other
    ensures s.parses[id].Top().ticket.Some? ==> s.parses[id].Top().ticket != s.parses[other].Top().ticket
  {
    assert HasFrame(s, id, |s.parses[id].frames| - 1) && HasFrame(s, other, |s.parses[other].frames| - 1);
    assert FrameAt(s, id, |s.parses[id].frames| - 1) == s.parses[id].Top();
    assert FrameAt(s, other, |s.parses[other].frames| - 1) == s.parses[other].Top();
  }

  /** A step of one parse leaves every other parse's slot as it was. */
  lemma OthersKeepTheirSlots(s: State, a: Action, t: nat, id: nat)
    requires Inv(s) && Enabled(s, a) && id != a.id && Owned(s, t, id)
    ensures Owned(Apply(s, a), t, id)
  {
    if !a.Start? {
      TopTicketsDiffer(s, id, a.id);
    }
  }

  lemma SlotsKept(s: State, a: Action)
    requires Inv(s) && Enabled(s, a)
    ensures forall t :: t in Apply(s, a).slots ==> exists id :: Owned(Apply(s, a), t, id)
  {
    var s' := Apply(s, a);
    forall t | t in s'.slots ensures exists id :: Owned(s', t, id) {
      if a.Record? && s.parses[a.id].Top().ticket == Some(t) {
        assert Owned(s', t, a.id);
      } else {
        var id :| Owned(s, t, id);
        if id != a.id { OthersKeepTheirSlots(s, a, t, id); }
      }
    }
  }

  lemma TopsKept(s: State, a: Action, id: nat)
    requires Inv(s) && Enabled(s, a) && Live(Apply(s, a), id)
    ensures var top := Apply(s, a).parses[id].Top();
            top.phase.Reported? && top.ticket.Some? ==> Owned(Apply(s, a), top.ticket.value, id)
  {
    if id != a.id && s.parses[id].Top().phase.Reported? && s.parses[id].Top().ticket.Some? {
      OthersKeepTheirSlots(s, a, s.parses[id].Top().ticket.value, id);
    }
  }

  lemma InvKept(s: State, a: Action)
    requires Inv(s) && Enabled(s, a)
    ensures Inv(Apply(s, a))
  {
    DistinctKept(s, a);
    ParsesKept(s, a);
    SlotsKept(s, a);
    forall id | Live(Apply(s, a), id) { TopsKept(s, a, id); }
  }

  // ----- every interleaving -----

  /** `run` starts with no parse and takes one atomic step of some parse at a time. */
  ghost predicate IsRun(run: seq<State>, actions: seq<Action>) {
    && |run| == |actions| + 1
    && run[0] == INITIAL
    && forall i :: 0 <= i < |actions| ==> Enabled(run[i], actions[i]) && run[i + 1] == Apply(run[i], actions[i])
  }

  lemma {:induction false} InvAlways(run: seq<State>, actions: seq<Action>, i: nat)
    requires IsRun(run, actions) && i < |run|
    ensures Inv(run[i])
  {
    if i == 0 {
      InvInit();
    } else {
      InvAlways(run, actions, i - 1);
      InvKept(run[i - 1], actions[i - 1]);
    }
  }

  /** In every interleaving, live tickets are distinct, and the table is empty once all parses end. */
  lemma TableIsClean(run: seq<State>, actions: seq<Action>, i: nat)
    requires IsRun(run, actions) && i < |run|
    ensures DistinctTickets(run[i])
    ensures run[i].parses == map[] ==> run[i].slots == map[]
  {
    InvAlways(run, actions, i);
  }

  /**
   * In every interleaving, the report that an enclosing load raises again is the one its own
   * nested parse first raised, whatever the other parses do in between.
   */
  lemma ReportsComeHome(run: seq<State>, actions: seq<Action>, i: nat)
    requires IsRun(run, actions) && i < |actions| && actions[i].Take?
    requires run[i].parses[actions[i].id].Top().phase.Reported?
    ensures var before, after := run[i].parses[actions[i].id], run[i + 1].parses[actions[i].id];
            && after.Top().phase == Raising(before.Top().phase.report)
            && before.origin == after.origin == Some(before.Top().phase.report)
  {
    InvAlways(run, actions, i);
    TakeYieldsOrigin(run[i], actions[i].id, actions[i].path);
    assert ParseOk(run[i].parses[actions[i].id], run[i].next);
  }

  /** A parse raises once: its origin, once set, stays as it is until the parse ends. */
  lemma OriginIsFinal(run: seq<State>, actions: seq<Action>, i: nat, id: nat)
    requires IsRun(run, actions) && i < |actions| && id in run[i].parses && run[i].parses[id].origin.Some?
    ensures id in run[i + 1].parses ==> run[i + 1].parses[id].origin == run[i].parses[id].origin
    ensures id !in run[i + 1].parses ==> actions[i] == End(id)
  {
    InvAlways(run, actions, i);
    assert ParseOk(run[i].parses[id], run[i].next);
    if actions[i].Take? && actions[i].id == id {
      TakeYieldsOrigin(run[i], id, actions[i].path);
    }
  }

  /** What a parse finally returns to its caller is the report it first raised, at whatever depth. */
  lemma CallerReadsTheOrigin(run: seq<State>, actions: seq<Action>, i: nat)
    requires IsRun(run, actions) && i < |actions| && actions[i].End?
    ensures var p := run[i].parses[actions[i].id];
            p.Top().phase.Reported? ==> p.origin == Some(p.Top().phase.report)
  {
    InvAlways(run, actions, i);
    assert ParseOk(run[i].parses[actions[i].id], run[i].next);
  }

  // ----- one parse, as it goes -----

  /** Some interleaving of some parses leads here. */
  ghost predicate Reached(s: State) {
    exists run, actions :: IsRun(run, actions) && run[|actions|] == s
  }

  lemma ReachedFirst()
    ensures Reached(INITIAL)
  {
    var run: seq<State>, actions: seq<Action> := [INITIAL], [];
    assert IsRun(run, actions) && run[|actions|] == INITIAL;
  }

  lemma ReachedOn(s: State, a: Action)
    requires Reached(s) && Enabled(s, a)
    ensures Reached(Apply(s, a))
  {
    var run, actions :| IsRun(run, actions) && run[|actions|] == s;
    var longer, more := run + [Apply(s, a)], actions + [a];
    forall i | 0 <= i < |more| ensures Enabled(longer[i], more[i]) && longer[i + 1] == Apply(longer[i], more[i]) {
      assert i < |actions| ==> longer[i] == run[i] && longer[i + 1] == run[i + 1] && more[i] == actions[i];
    }
    assert IsRun(longer, more) && longer[|more|] == Apply(s, a);
  }

  lemma ReachedKeepsInv(s: State)
    requires Reached(s)
    ensures Inv(s)
  {
    var run, actions :| IsRun(run, actions) && run[|actions|] == s;
    InvAlways(run, actions, |actions|);
  }

  /** Every slot in the table is under a ticket already minted. */
  lemma SlotsAreMinted(s: State)
    requires Reached(s)
    ensures forall t :: t in s.slots ==> t < s.next
  {
    ReachedKeepsInv(s);
    forall t | t in s.slots ensures t < s.next {
      var id :| Owned(s, t, id);
      assert ParseOk(s.parses[id], s.next);
    }
  }

  /** The parse has these frames, the innermost one under this ticket and in this phase. */
  ghost predicate Stands(s: State, id: nat, front: seq<Frame>, ticket: Option<nat>, phase: Phase) {
    id in s.parses && s.parses[id].frames == front + [Frame(ticket, phase)]
  }

  /** Every other parse is where it was. */
  ghost predicate OthersStay(s: State, s': State, id: nat) {
    s'.parses - {id} == s.parses - {id}
  }

  lemma StartStands(s: State, id: nat)
    requires id !in s.parses
    ensures var s' := Apply(s, Start(id)); Stands(s', id, [], None, Running) && OthersStay(s, s', id)
  {
    assert [] + [Frame(None, Running)] == [Frame(None, Running)];
  }

  lemma NestStands(s: State, id: nat, front: seq<Frame>, ticket: Option<nat>)
    requires Stands(s, id, front, ticket, Running)
    ensures Enabled(s, Nest(id))
    ensures var s' := Apply(s, Nest(id));
            Stands(s', id, front + [Frame(ticket, Waiting)], Some(s.next), Running) && OthersStay(s, s', id)
  {
  }

  /** The phase that a step within the innermost frame leads to. */
  ghost function Led(phase: Phase, a: Action): Option<Phase> {
    match a
    case Fail(_, report) =>
      if phase.Running? && report.Code() != "" && !report.Grammar? then Some(Raising(report)) else None
    case Record(_) => if phase.Raising? then Some(Reported(phase.report)) else None
    case Break(_, code, detail) => if phase.Running? then Some(Broken(code, detail)) else None
    case Finish(_) => if phase.Running? then Some(Finished) else None
    case _ => None
  }

  lemma StepStands(s: State, a: Action, front: seq<Frame>, ticket: Option<nat>, phase: Phase)
    requires Stands(s, a.id, front, ticket, phase) && Led(phase, a).Some?
    ensures Enabled(s, a)
    ensures var s' := Apply(s, a); Stands(s', a.id, front, ticket, Led(phase, a).value) && OthersStay(s, s', a.id)
    ensures Apply(s, a).slots == if a.Record? && ticket.Some? then s.slots[ticket.value := phase.report] else s.slots
    ensures Apply(s, a).next == s.next
  {
  }

  /** The enclosing load comes back to its own frame, with the slot of the nested one freed. */
  lemma TakeStands(s: State, id: nat, path: string, front: seq<Frame>, ticket: Option<nat>, mine: nat, phase: Phase)
    requires Stands(s, id, front + [Frame(ticket, Waiting)], Some(mine), phase) && (phase.Reported? || phase.Broken?)
    ensures Enabled(s, Take(id, path))
    ensures var s' := Apply(s, Take(id, path));
            && Stands(s', id, front, ticket, Raising(Retaken(s.slots, Frame(Some(mine), phase), path))) &&
               OthersStay(s, s', id)
            && s'.slots == s.slots - {mine} && s'.next == s.next
  {
  }

  lemma DiscardStands(s: State, id: nat, front: seq<Frame>, ticket: Option<nat>, mine: nat)
    requires Stands(s, id, front + [Frame(ticket, Waiting)], Some(mine), Finished)
    ensures Enabled(s, Discard(id))
    ensures var s' := Apply(s, Discard(id));
            && Stands(s', id, front, ticket, Running) && OthersStay(s, s', id)
            && s'.slots == s.slots - {mine} && s'.next == s.next
  {
  }

  lemma EndStands(s: State, id: nat, phase: Phase)
    requires Stands(s, id, [], None, phase) && (phase.Reported? || phase.Broken? || phase.Finished?)
    ensures Enabled(s, End(id))
    ensures Apply(s, End(id)) == s.(parses := s.parses - {id})
  {
  }
}
