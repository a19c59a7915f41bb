/**
 * The directive action as it runs: report slots, the dependency sink and the node under
 * construction are updated in place. It is proved to compute what `Expand` specifies, and every
 * access to the slots to be a step of the protocol in `Tickets`.
 */
module Engine {
  import opened Common
  import opened Values
  import opened References
  import opened Expand
  import Tickets

  /**
   * The diagnostics raised inside nested parses, one slot for each nested load. `state` is a ghost:
   * the frames of every parse that shares the table, as the protocol has them.
   */
  class LastReport {
    var slots: map<nat, Report>
    var next: nat
    ghost var state: Tickets.State

    constructor ()
      ensures Mirrors() && state == Tickets.INITIAL
    {
      slots, next, state := map[], 0, Tickets.INITIAL;
      new;
      Tickets.ReachedFirst();
    }

    /** The table is that of a state which some interleaving of parses leads to. */
    ghost predicate Mirrors()
      reads this
    {
      Tickets.Reached(state) && slots == state.slots && next == state.next
    }

    method Ticket(ghost id: nat) returns (ticket: nat)
      requires Mirrors() && Tickets.Enabled(state, Tickets.Nest(id))
      modifies this
      ensures Mirrors() && state == Tickets.Apply(old(state), Tickets.Nest(id))
      ensures ticket == old(next) && ticket !in slots && slots == old(slots)
    {
      Tickets.SlotsAreMinted(state);
      ticket := next;
      next := next + 1;
      Tickets.ReachedOn(state, Tickets.Nest(id));
      state := Tickets.Apply(state, Tickets.Nest(id));
    }

    method Record(ticket: nat, report: Report, ghost id: nat)
      requires Mirrors() && Tickets.Enabled(state, Tickets.Record(id))
      requires state.parses[id].Top() == Tickets.Frame(Some(ticket), Tickets.Raising(report))
      modifies this
      ensures Mirrors() && state == Tickets.Apply(old(state), Tickets.Record(id))
      ensures slots == old(slots)[ticket := report] && next == old(next)
    {
      slots := slots[ticket := report];
      Tickets.ReachedOn(state, Tickets.Record(id));
      state := Tickets.Apply(state, Tickets.Record(id));
    }

    /** The report left under `ticket`, if it carries `code`; the slot is freed either way. */
    method Take(ticket: nat, code: string, ghost id: nat, ghost path: string) returns (report: Option<Report>)
      requires Mirrors() && Tickets.Enabled(state, Tickets.Take(id, path)) &&
               state.parses[id].Top().ticket == Some(ticket)
      modifies this
      ensures Mirrors() && state == Tickets.Apply(old(state), Tickets.Take(id, path))
      ensures slots == old(slots) - {ticket} && next == old(next)
      ensures report ==
              if ticket in old(slots) && old(slots)[ticket].Code() == code then Some(old(slots)[ticket]) else None
    {
      report := None;
      if ticket in slots && slots[ticket].Code() == code {
        report := Some(slots[ticket]);
      }
      slots := slots - {ticket};
      Tickets.ReachedOn(state, Tickets.Take(id, path));
      state := Tickets.Apply(state, Tickets.Take(id, path));
    }

    method Discard(ticket: nat, ghost id: nat)
      requires Mirrors() && Tickets.Enabled(state, Tickets.Discard(id)) && state.parses[id].Top().ticket == Some(ticket)
      modifies this
      ensures Mirrors() && state == Tickets.Apply(old(state), Tickets.Discard(id))
      ensures slots == old(slots) - {ticket} && next == old(next)
    {
      slots := slots - {ticket};
      Tickets.ReachedOn(state, Tickets.Discard(id));
      state := Tickets.Apply(state, Tickets.Discard(id));
    }

    /** A step of one parse that leaves the table alone. */
    ghost method Step(a: Tickets.Action)
      requires Mirrors() && Tickets.Enabled(state, a)
      requires Tickets.Apply(state, a).slots == slots && Tickets.Apply(state, a).next == next
      modifies this`state
      ensures Mirrors() && state == Tickets.Apply(old(state), a)
    {
      Tickets.ReachedOn(state, a);
      state := Tickets.Apply(state, a);
    }
  }

  /** The dependency sink: by target, then by source. */
  class DependencySink {
    var deps: map<string, map<string, Edge>>

    ghost function Edges(): set<Edge>
      reads this
    {
      set tar, src | tar in deps && src in deps[tar] :: deps[tar][src]
    }

    /** Each record sits under its own target and source. */
    ghost predicate Filed()
      reads this
    {
      forall tar, src :: tar in deps && src in deps[tar] ==> deps[tar][src] == Edge(tar, src)
    }

    constructor ()
      ensures Filed() && Edges() == {}
    {
      deps := map[];
    }

    method Insert(tar: string, src: string)
      requires Filed()
      modifies this
      ensures Filed()
      ensures Edges() == old(Edges()) + {Edge(tar, src)}
    {
      var bucket := if tar in deps then deps[tar] else map[];
      deps := deps[tar := bucket[src := Edge(tar, src)]];
      assert Edge(tar, src) == deps[tar][src];
      assert forall t, s :: (t in deps && s in deps[t]) <==>
               (t == tar && s == src) || (t in old(deps) && s in old(deps)[t]);
    }
  }

  // ----- well-formed values in, well-formed values out -----

  ghost predicate CleanDoc(doc: Doc) {
    match doc
    case Lit(value) => Valid(value)
    case Items(items) => forall i :: 0 <= i < |items| ==> CleanDoc(items[i])
    case Members(members) => forall i :: 0 <= i < |members| ==> CleanMember(members[i])
    case _ => true
  }

  ghost predicate CleanMember(m: Member) { m.Pair? ==> CleanDoc(m.doc) }

  ghost predicate CleanEnv(env: Env) {
    ValidEnv(env) && forall key :: key in env.content ==> CleanDoc(DocOf(env, key))
  }

  /** The text of an error, which is all an outer level can read of a nested one, beside its code. */
  function DetailText(report: Report): string {
    match report
    case Grammar(_, detail) => detail
    case Unprocessed(_, _, detail) => detail
    case _ => ""
  }

  lemma SlotComesAndGoes(slots: map<nat, Report>, ticket: nat, report: Report)
    requires ticket !in slots
    ensures slots[ticket := report] - {ticket} == slots && slots - {ticket} == slots
  {
  }

  /** Where the innermost frame is once its directives have run: a grammar's error is returned as it is. */
  ghost function PhaseAfter(res: Result): Tickets.Phase {
    match res
    case Ok(_) => Tickets.Running
    case Err(report) => if report.Grammar? then Tickets.Running else Tickets.Reported(report)
  }

  /** The slots once a frame's directives have run: a report goes under the frame's ticket. */
  ghost function SlotsAfter(slots: map<nat, Report>, ticket: Option<nat>, res: Result): map<nat, Report> {
    if res.Err? && !res.report.Grammar? && ticket.Some? then slots[ticket.value := res.report] else slots
  }

  /** A parse on the way: `id` among those that share the table, and the frames that its innermost one is nested in. */
  datatype Place = Place(id: nat, front: seq<Tickets.Frame>, ticket: Option<nat>) {
    ghost predicate Holds(s: Tickets.State, phase: Tickets.Phase) { Tickets.Stands(s, id, front, ticket, phase) }

    function Below(mine: nat): Place { Place(id, front + [Tickets.Frame(ticket, Tickets.Waiting)], Some(mine)) }
  }

  /** One instance: what every parse on it shares. */
  class Session {
    const reports: LastReport
    const sink: DependencySink

    constructor ()
      ensures fresh(reports) && fresh(sink)
      ensures reports.Mirrors() && reports.state == Tickets.INITIAL && sink.Filed() && sink.Edges() == {}
    {
      reports := new LastReport();
      sink := new DependencySink();
    }

    ghost predicate Ready(env: Env, place: Place)
      reads this, reports, sink
    {
      CleanEnv(env) && reports.Mirrors() && sink.Filed() && place.Holds(reports.state, Tickets.Running)
    }

    /**
     * What a run leaves behind: its edges, its report if it failed through a directive, its frame in
     * the phase that this comes to, and every other parse where it was.
     */
    twostate predicate Leaves(run: Run, place: Place)
      reads this, reports, sink
    {
      && reports.Mirrors() && sink.Filed()
      && sink.Edges() == old(sink.Edges()) + run.edges
      && reports.slots == SlotsAfter(old(reports.slots), place.ticket, run.res)
      && place.Holds(reports.state, PhaseAfter(run.res)) &&
         Tickets.OthersStay(old(reports.state), reports.state, place.id)
      && (if run.res.Ok? then Valid(run.res.value) else run.res.report.Grammar? || run.res.report.Code() != "")
    }

    /** What loading source `key` below `ctx` comes to. */
    ghost function Loaded(env: Env, ctx: Context, key: string): Run
      requires ValidEnv(env) && key in env.content
    {
      var nested := RunDoc(env, Context(ctx.Chain(), Some(key)), DocOf(env, key));
      Run(Reraise(key, nested.res), {Edge(ctx.Target(), key)} + nested.edges)
    }

    /** The report that is being raised goes into the frame's own slot, if it has one. */
    method Raise(report: Report, ticket: Option<nat>, ghost place: Place) returns (res: Result)
      requires reports.Mirrors() && place.Holds(reports.state, Tickets.Raising(report)) && ticket == place.ticket
      modifies reports
      ensures reports.Mirrors() && res == Err(report)
      ensures reports.slots == if ticket.Some? then old(reports.slots)[ticket.value := report] else old(reports.slots)
      ensures place.Holds(reports.state, Tickets.Reported(report))
      ensures Tickets.OthersStay(old(reports.state), reports.state, place.id)
    {
      Tickets.StepStands(reports.state, Tickets.Record(place.id), place.front, ticket, Tickets.Raising(report));
      if ticket.Some? {
        reports.Record(ticket.value, report, place.id);
      } else {
        reports.Step(Tickets.Record(place.id));
      }
      return Err(report);
    }

    /** A directive fails of itself. */
    method Fail(report: Report, ticket: Option<nat>, ghost place: Place) returns (res: Result)
      requires reports.Mirrors() && place.Holds(reports.state, Tickets.Running) && ticket == place.ticket
      requires report.Code() != "" && !report.Grammar?
      modifies reports
      ensures reports.Mirrors() && res == Err(report)
      ensures reports.slots == if ticket.Some? then old(reports.slots)[ticket.value := report] else old(reports.slots)
      ensures place.Holds(reports.state, Tickets.Reported(report))
      ensures Tickets.OthersStay(old(reports.state), reports.state, place.id)
    {
      Tickets.StepStands(reports.state, Tickets.Fail(place.id, report), place.front, ticket, Tickets.Running);
      reports.Step(Tickets.Fail(place.id, report));
      res := Raise(report, ticket, place);
    }

    method DirectiveAction(env: Env, ctx: Context, ticket: Option<nat>, body: Body, ghost place: Place)
      returns (res: Result)
      requires Ready(env, place) && ticket == place.ticket
      modifies reports, sink
      ensures res == Directive(env, ctx, body).res
      ensures Leaves(Directive(env, ctx, body), place)
      decreases Room(env, ctx), 0, 1
    {
      var reference := ReferenceOf(body);
      var resolution := env.resolve(ctx.path, reference);
      if !resolution.found {
        res := Fail(MissingReport(resolution, reference), ticket, place);
        return;
      }
      var full := resolution.FullPath();
      var parents := ctx.Chain();
      if full in parents {
        res := Fail(Cycle(full, LoopOf(parents, full)), ticket, place);
        return;
      }
      if env.cap.Some? && |parents| >= env.cap.value {
        res := Fail(Depth(full, env.cap.value), ticket, place);
        return;
      }
      res := LoadSource(env, ctx, ticket, full, place);
    }

    /** The rest of the action, once `full` may be loaded: nest the parse, raise what it raised. */
    method LoadSource(env: Env, ctx: Context, ticket: Option<nat>, full: string, ghost place: Place)
      returns (res: Result)
      requires Ready(env, place) && ticket == place.ticket && full in env.content && full !in ctx.Chain()
      modifies reports, sink
      ensures res == Loaded(env, ctx, full).res
      ensures Leaves(Loaded(env, ctx, full), place)
      decreases Room(env, ctx), 0, 0
    {
      sink.Insert(ctx.Target(), full);
      var child := Context(ctx.Chain(), Some(full));
      assert Room(env, child) < Room(env, ctx) by { ElemsAppend(ctx.Chain(), full); }
      var mine, nested := ParseNested(env, child, Processed(env, ExtKind(Some(full)), env.content[full]), place);
      assert sink.Edges() == old(sink.Edges()) + Loaded(env, ctx, full).edges;
      res := Resume(ticket, mine, full, nested, place, old(reports.slots));
    }

    /** A source is parsed under a ticket of its own. */
    method ParseNested(env: Env, child: Context, doc: Doc, ghost place: Place) returns (mine: nat, nested: Result)
      requires Ready(env, place) && CleanDoc(doc)
      modifies reports, sink
      ensures nested == RunDoc(env, child, doc).res && mine !in old(reports.slots)
      ensures reports.Mirrors() && reports.slots == SlotsAfter(old(reports.slots), Some(mine), nested)
      ensures sink.Filed() && sink.Edges() == old(sink.Edges()) + RunDoc(env, child, doc).edges
      ensures place.Below(mine).Holds(reports.state, PhaseAfter(nested))
      ensures Tickets.OthersStay(old(reports.state), reports.state, place.id)
      ensures if nested.Ok? then Valid(nested.value) else nested.report.Grammar? || nested.report.Code() != ""
      decreases Room(env, child), Size(doc), 1
    {
      Tickets.NestStands(reports.state, place.id, place.front, place.ticket);
      mine := reports.Ticket(place.id);
      nested := ParseDocument(env, child, Some(mine), doc, place.Below(mine));
    }

    /** Back from a nested parse: pass its value on, or raise what it raised. */
    method Resume(ticket: Option<nat>, mine: nat, full: string, nested: Result, ghost place: Place,
                  ghost before: map<nat, Report>)
      returns (res: Result)
      requires reports.Mirrors() && ticket == place.ticket && mine !in before
      requires place.Below(mine).Holds(reports.state, PhaseAfter(nested)) &&
               reports.slots == SlotsAfter(before, Some(mine), nested)
      requires nested.Err? ==> nested.report.Grammar? || nested.report.Code() != ""
      modifies reports
      ensures reports.Mirrors() && res == Reraise(full, nested)
      ensures res.Err? ==> res.report.Code() != "" && !res.report.Grammar?
      ensures reports.slots == SlotsAfter(before, ticket, res)
      ensures place.Holds(reports.state, PhaseAfter(res)) &&
              Tickets.OthersStay(old(reports.state), reports.state, place.id)
    {
      if nested.Err? {
        SlotComesAndGoes(before, mine, nested.report);
        res := RaiseAgain(ticket, mine, full, nested.report, place);
      } else {
        SlotComesAndGoes(before, mine, Grammar("", ""));
        Release(mine, place);
        res := nested;
      }
    }

    /** A nested parse succeeded: its slot is freed unread. */
    method Release(mine: nat, ghost place: Place)
      requires reports.Mirrors() && place.Below(mine).Holds(reports.state, Tickets.Running)
      modifies reports
      ensures reports.Mirrors() && place.Holds(reports.state, Tickets.Running)
      ensures Tickets.OthersStay(old(reports.state), reports.state, place.id)
      ensures reports.slots == old(reports.slots) - {mine}
    {
      ghost var below := place.Below(mine);
      Tickets.StepStands(reports.state, Tickets.Finish(place.id), below.front, Some(mine), Tickets.Running);
      reports.Step(Tickets.Finish(place.id));
      Tickets.DiscardStands(reports.state, place.id, place.front, place.ticket, mine);
      reports.Discard(mine, place.id);
    }

    /** A nested parse failed: raise its own report again if it left one, else say what can be read of it. */
    method RaiseAgain(ticket: Option<nat>, mine: nat, full: string, nested: Report, ghost place: Place)
      returns (res: Result)
      requires reports.Mirrors() && ticket == place.ticket
      requires place.Below(mine).Holds(reports.state, PhaseAfter(Err(nested)))
      requires if nested.Grammar? then mine !in reports.slots
               else mine in reports.slots && reports.slots[mine] == nested && nested.Code() != ""
      modifies reports
      ensures reports.Mirrors() && res == Reraise(full, Err(nested)) && res.report.Code() != "" && !res.report.Grammar?
      ensures var rest := old(reports.slots) - {mine};
              reports.slots == if ticket.Some? then rest[ticket.value := res.report] else rest
      ensures place.Holds(reports.state, Tickets.Reported(res.report))
      ensures Tickets.OthersStay(old(reports.state), reports.state, place.id)
    {
      GiveUp(mine, nested, place);
      ghost var phase := PhaseReturned(nested);
      Tickets.TakeStands(reports.state, place.id, full, place.front, ticket, mine, phase);
      ghost var report := Tickets.Retaken(reports.slots, Tickets.Frame(Some(mine), phase), full);
      var code := if nested.Code() == "" then "unexpected" else nested.Code();
      var own := reports.Take(mine, code, place.id, full);
      assert report == if own.Some? then own.value else Unprocessed(code, full, DetailText(nested));
      res := Raise(if own.Some? then own.value else Unprocessed(code, full, DetailText(nested)), ticket, place);
    }

    /** The frame of a parse that failed, as its caller finds it. */
    ghost function PhaseReturned(report: Report): Tickets.Phase {
      if report.Grammar? then Tickets.Broken(report.code, report.detail) else Tickets.Reported(report)
    }

    ghost method GiveUp(mine: nat, nested: Report, place: Place)
      requires reports.Mirrors() && place.Below(mine).Holds(reports.state, PhaseAfter(Err(nested)))
      modifies reports`state
      ensures reports.Mirrors() && place.Below(mine).Holds(reports.state, PhaseReturned(nested))
      ensures Tickets.OthersStay(old(reports.state), reports.state, place.id)
    {
      if nested.Grammar? {
        var a := Tickets.Break(place.id, nested.code, nested.detail);
        Tickets.StepStands(reports.state, a, place.Below(mine).front, Some(mine), Tickets.Running);
        reports.Step(a);
      }
    }

    method ParseDocument(env: Env, ctx: Context, ticket: Option<nat>, doc: Doc, ghost place: Place)
      returns (res: Result)
      requires Ready(env, place) && ticket == place.ticket && CleanDoc(doc)
      modifies reports, sink
      ensures res == RunDoc(env, ctx, doc).res
      ensures Leaves(RunDoc(env, ctx, doc), place)
      decreases Room(env, ctx), Size(doc), 0
    {
      match doc {
        case Lit(value) => res := Ok(value);
        case Load(body) => res := DirectiveAction(env, ctx, ticket, body, place);
        case Items(items) => res := ParseItems(env, ctx, ticket, [], items, place);
        case Members(members) =>
          var cell := new Cell(EMPTY);
          res := ParseMembers(env, ctx, ticket, cell, members, place);
        case Fault(code, detail) => res := Err(Grammar(code, detail));
      }
    }

    method ParseItems(env: Env, ctx: Context, ticket: Option<nat>, done: seq<Value>, items: seq<Doc>,
                      ghost place: Place)
      returns (res: Result)
      requires Ready(env, place) && ticket == place.ticket && forall i :: 0 <= i < |items| ==> CleanDoc(items[i])
      requires Valid(List(Plain, done))
      modifies reports, sink
      ensures res == RunItems(env, ctx, done, items).res
      ensures Leaves(RunItems(env, ctx, done, items), place)
      decreases Room(env, ctx), ItemsSize(items), 0
    {
      if items == [] {
        return Ok(List(Plain, done));
      }
      res := ParseDocument(env, ctx, ticket, items[0], place);
      if res.Ok? {
        res := ParseItems(env, ctx, ticket, done + [res.value], items[1..], place);
      }
    }

    /** The members of a map, in order, into the one node that they share. */
    method ParseMembers(env: Env, ctx: Context, ticket: Option<nat>, cell: Cell, members: seq<Member>,
                        ghost place: Place)
      returns (res: Result)
      requires Ready(env, place) && ticket == place.ticket && forall i :: 0 <= i < |members| ==> CleanMember(members[i])
      requires Valid(cell.node)
      modifies reports, sink, cell
      ensures res == RunMembers(env, ctx, old(cell.node), members).res
      ensures Leaves(RunMembers(env, ctx, old(cell.node), members), place)
      decreases Room(env, ctx), MembersSize(members), 0
    {
      if members == [] {
        return Ok(cell.node);
      }
      MembersGoOn(env, ctx, cell.node, members);
      res := ParseInto(env, ctx, ticket, cell, members[0], place);
      if res.Ok? {
        res := ParseMembers(env, ctx, ticket, cell, members[1..], place);
      }
    }

    /** A run through members is that of the first and, if it succeeded, that of the rest on the node it leaves. */
    lemma MembersGoOn(env: Env, ctx: Context, node: Value, members: seq<Member>)
      requires ValidEnv(env) && members != []
      ensures var first := RunMember(env, ctx, members[0]);
              RunMembers(env, ctx, node, members) ==
              if first.res.Err? then first
              else
                var rest := RunMembers(env, ctx, Put(env.extend, node, members[0], first.res.value), members[1..]);
                Run(rest.res, first.edges + rest.edges)
    {
    }

    /** One member of a map: its value goes into the node under construction. */
    method ParseInto(env: Env, ctx: Context, ticket: Option<nat>, cell: Cell, m: Member, ghost place: Place)
      returns (res: Result)
      requires Ready(env, place) && ticket == place.ticket && CleanMember(m) && Valid(cell.node)
      modifies reports, sink, cell
      ensures res == RunMember(env, ctx, m).res
      ensures Leaves(RunMember(env, ctx, m), place)
      ensures res.Ok? ==> Valid(cell.node) && cell.node == Put(env.extend, old(cell.node), m, res.value)
      decreases Room(env, ctx), MemberSize(m), 2
    {
      res := ParseMember(env, ctx, ticket, m, place);
      if res.Ok? {
        match m {
          case Pair(key, _) => cell.PutPair(env.extend, key, res.value);
          case Spliced(_) => cell.SpliceInto(env.extend, res.value);
        }
      }
    }

    method ParseMember(env: Env, ctx: Context, ticket: Option<nat>, m: Member, ghost place: Place) returns (res: Result)
      requires Ready(env, place) && ticket == place.ticket && CleanMember(m)
      modifies reports, sink
      ensures res == RunMember(env, ctx, m).res
      ensures Leaves(RunMember(env, ctx, m), place)
      decreases Room(env, ctx), MemberSize(m), 1
    {
      match m {
        case Pair(_, doc) => res := ParseDocument(env, ctx, ticket, doc, place);
        case Spliced(body) => res := DirectiveAction(env, ctx, ticket, body, place);
      }
    }

    /**
     * A top-level parse: no ancestors, and no slot to report under. It may start among any number of
     * parses that are under way, and leaves their frames and every slot as they were.
     */
    method Parse(env: Env, doc: Doc, ghost id: nat) returns (res: Result)
      requires CleanEnv(env) && CleanDoc(doc) && reports.Mirrors() && sink.Filed() && id !in reports.state.parses
      modifies reports, sink
      ensures res == RunDoc(env, TOP_LEVEL, doc).res
      ensures sink.Filed() && sink.Edges() == old(sink.Edges()) + RunDoc(env, TOP_LEVEL, doc).edges
      ensures reports.Mirrors() && reports.slots == old(reports.slots) &&
              reports.state.parses == old(reports.state.parses)
    {
      ghost var place := Place(id, [], None);
      Tickets.StartStands(reports.state, id);
      reports.Step(Tickets.Start(id));
      res := ParseDocument(env, TOP_LEVEL, None, doc, place);
      Ends(place, res);
    }

    /** The top-level frame is done with, whatever it came to. */
    ghost method Ends(place: Place, res: Result)
      requires reports.Mirrors() && place.Holds(reports.state, PhaseAfter(res)) && place.front == [] &&
               place.ticket.None?
      modifies reports`state
      ensures reports.Mirrors() && reports.state.parses == old(reports.state.parses) - {place.id}
    {
      var phase := if res.Ok? then Tickets.Finished else PhaseReturned(res.report);
      if phase.Finished? || phase.Broken? {
        var a :=
          if phase.Finished? then Tickets.Finish(place.id) else Tickets.Break(place.id, phase.code, phase.detail);
        Tickets.StepStands(reports.state, a, [], None, Tickets.Running);
        reports.Step(a);
      }
      Tickets.EndStands(reports.state, place.id, phase);
      reports.Step(Tickets.End(place.id));
    }
  }
}
