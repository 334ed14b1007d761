/** Runs of the command queue: the statements of any number of calls in any order. */
module CommandRuns {
  import opened Wrappers
  import opened CommandQueue

  /** A call runs until it returns its commands, or fails and returns none. */
  datatype Phase = Running | Returned | Aborted

  /** A call of `CheckCommands` after its select. */
  datatype Call = Call(gateway: string, ids: seq<string>, marked: nat, phase: Phase)

  datatype State = State(table: Table, calls: map<nat, Call>)

  /**
   One statement, or the end of a call; statements say whether they take effect.  A call fails at a row
   that cannot be read, before any mark, or wherever it is when the server dies.
   */
  datatype Act =
    | Arrive(id: string, row: Row)
    | Select(call: nat, gateway: string, ids: seq<string>)
    | Mark(call: nat, id: string, applied: bool)
    | Return(call: nat)
    | Fail(call: nat)
    | Report(gateway: string, id: string, status: Status, result: string, applied: bool)

  ghost predicate Enabled(s: State, a: Act) {
    match a
    case Arrive(id, row) => id !in s.table && row.status == Pending
    case Select(call, gateway, ids) => call !in s.calls && Fetches(s.table, gateway, ids)
    case Mark(call, id, _) =>
      && call in s.calls && s.calls[call].phase.Running?
      && s.calls[call].marked < |s.calls[call].ids| && id == s.calls[call].ids[s.calls[call].marked]
    case Return(call) =>
      call in s.calls && s.calls[call].phase.Running? && s.calls[call].marked == |s.calls[call].ids|
    case Fail(call) => call in s.calls && s.calls[call].phase.Running?
    case Report(_, _, _, _, _) => true
  }

  function Step(s: State, a: Act): State {
    match a
    case Arrive(id, row) => s.(table := s.table[id := row])
    case Select(call, gateway, ids) => s.(calls := s.calls[call := Call(gateway, ids, 0, Running)])
    case Mark(call, id, applied) =>
      var calls := if call in s.calls then s.calls[call := s.calls[call].(marked := s.calls[call].marked + 1)]
          else s.calls;
      State(if applied then MarkRow(s.table, id) else s.table, calls)
    case Return(call) => if call in s.calls then s.(calls := s.calls[call := s.calls[call].(phase := Returned)]) else s
    case Fail(call) => if call in s.calls then s.(calls := s.calls[call := s.calls[call].(phase := Aborted)]) else s
    case Report(gateway, id, status, result, applied) =>
      if applied then s.(table := ReportRow(s.table, gateway, id, status, result)) else s
  }

  function Front(acts: seq<Act>): seq<Act>
    requires acts != []
  {
    acts[..|acts| - 1]
  }

  function Last(acts: seq<Act>): Act
    requires acts != []
  {
    acts[|acts| - 1]
  }

  function After(t: Table, acts: seq<Act>): State {
    if acts == [] then State(t, map[]) else Step(After(t, Front(acts)), Last(acts))
  }

  ghost predicate Legal(t: Table, acts: seq<Act>) {
    acts == [] || (Legal(t, Front(acts)) && Enabled(After(t, Front(acts)), Last(acts)))
  }

  /** The commands selected into some call's result. */
  function Selected(acts: seq<Act>): set<string> {
    if acts == [] then {}
    else Selected(Front(acts)) + match Last(acts) case Select(_, _, ids) => (set id | id in ids) case _ => {}
  }

  /** The commands whose own gateway named them in a report that took effect. */
  function Reported(t: Table, acts: seq<Act>): set<string> {
    if acts == [] then {}
    else Reported(t, Front(acts)) + ReportedBy(After(t, Front(acts)).table, Last(acts))
  }

  function ReportedBy(t: Table, a: Act): set<string> {
    match a
    case Report(gateway, id, _, _, true) => if id in t && t[id].gateway == gateway then {id} else {}
    case _ => {}
  }

  // ---- Nothing is lost ----

  /** A call holds commands of its own gateway, all selected. */
  ghost predicate CallOk(t: Table, c: Call, selected: set<string>) {
    && c.marked <= |c.ids| && (c.phase.Returned? ==> c.marked == |c.ids|)
    && forall i | 0 <= i < |c.ids| :: c.ids[i] in t && t[c.ids[i]].gateway == c.gateway && c.ids[i] in selected
  }

  ghost predicate CallsOk(s: State, selected: set<string>) {
    forall call | call in s.calls :: CallOk(s.table, s.calls[call], selected)
  }

  ghost predicate Handled(s: State, handled: set<string>) {
    forall id | id in s.table && s.table[id].status != Pending :: id in handled
  }

  /** Rows stay, and keep their gateway. */
  ghost predicate SameRows(before: Table, after: Table) {
    forall id | id in before :: id in after && after[id].gateway == before[id].gateway
  }

  lemma StepSameRows(s: State, a: Act)
    requires Enabled(s, a)
    ensures SameRows(s.table, Step(s, a).table)
  {
  }

  lemma CallStays(t: Table, u: Table, c: Call, selected: set<string>, more: set<string>)
    requires CallOk(t, c, selected) && SameRows(t, u) && selected <= more
    ensures CallOk(u, c, more)
  {
  }

  lemma CallsStep(s: State, a: Act, selected: set<string>, more: set<string>)
    requires CallsOk(s, selected) && Enabled(s, a) && selected <= more
    requires a.Select? ==> forall i | 0 <= i < |a.ids| :: a.ids[i] in more
    ensures CallsOk(Step(s, a), more)
  {
    StepSameRows(s, a);
    var u := Step(s, a).table;
    forall call | call in s.calls ensures CallOk(u, s.calls[call], more) {
      CallStays(s.table, u, s.calls[call], selected, more);
    }
    if a.Select? {
      forall i: nat | i < |a.ids| ensures a.ids[i] in s.table && s.table[a.ids[i]].gateway == a.gateway {
        FetchedIsPending(s.table, a.gateway, a.ids, i);
      }
    }
  }

  /**
   In every run that starts with pending commands only, a command that is not pending was selected
   into some call's result or named in a report of its own gateway, whatever statements fail.
   */
  lemma {:induction false} NoneLost(t: Table, acts: seq<Act>)
    requires Legal(t, acts) && Handled(State(t, map[]), {})
    ensures CallsOk(After(t, acts), Selected(acts)) && Handled(After(t, acts), Selected(acts) + Reported(t, acts))
  {
    if acts != [] {
      var s, a := After(t, Front(acts)), Last(acts);
      NoneLost(t, Front(acts));
      CallsStep(s, a, Selected(Front(acts)), Selected(acts));
      if a.Mark? {
        assert CallOk(s.table, s.calls[a.call], Selected(Front(acts)));
      }
    }
  }

  /** A mark only ever changes a command of the gateway that asked, though the statement does not name it. */
  lemma MarksOwnCommands(t: Table, acts: seq<Act>)
    requires Legal(t, acts) && acts != [] && Last(acts).Mark?
    ensures var s, a := After(t, Front(acts)), Last(acts);
            a.id in s.table && s.table[a.id].gateway == s.calls[a.call].gateway
  {
    CallsHeld(t, Front(acts));
    var s, a := After(t, Front(acts)), Last(acts);
    assert CallOk(s.table, s.calls[a.call], s.table.Keys);
  }

  // ---- The last write wins ----

  /** What the last statement for a command wrote; `None` if no statement did. */
  function LastWrite(acts: seq<Act>, id: string, gateway: string): Option<Status> {
    if acts == [] then None
    else
      match Last(acts)
      case Arrive(i, _) => if i == id then Some(Pending) else LastWrite(Front(acts), id, gateway)
      case Mark(_, i, applied) => if i == id && applied then Some(Delivered) else LastWrite(Front(acts), id, gateway)
      case Report(g, i, status, _, applied) =>
        if i == id && g == gateway && applied then Some(status) else LastWrite(Front(acts), id, gateway)
      case _ => LastWrite(Front(acts), id, gateway)
  }

  /** The status of a command is what the last statement for it wrote, be it a report or a late mark. */
  lemma {:induction false} StatusIsLastWrite(t: Table, acts: seq<Act>, id: string)
    requires Legal(t, acts) && id in After(t, acts).table
    ensures var row := After(t, acts).table[id];
            match LastWrite(acts, id, row.gateway)
            case Some(status) => row.status == status
            case None => id in t && row.status == t[id].status
  {
    if acts != [] {
      if id in After(t, Front(acts)).table {
        StatusIsLastWrite(t, Front(acts), id);
        StepSameRows(After(t, Front(acts)), Last(acts));
      }
    }
  }

  /** The result in the last report of the command's own gateway that took effect, or the one it arrived with. */
  function LastResult(acts: seq<Act>, id: string, gateway: string): Option<string> {
    if acts == [] then None
    else
      match Last(acts)
      case Arrive(i, row) => if i == id then Some(row.result) else LastResult(Front(acts), id, gateway)
      case Report(g, i, _, result, applied) =>
        if i == id && g == gateway && applied then Some(result) else LastResult(Front(acts), id, gateway)
      case _ => LastResult(Front(acts), id, gateway)
  }

  /** The result that is stored is the one last reported; marks, even late ones, leave it. */
  lemma {:induction false} ResultIsLastReport(t: Table, acts: seq<Act>, id: string)
    requires Legal(t, acts) && id in After(t, acts).table
    ensures var row := After(t, acts).table[id];
            match LastResult(acts, id, row.gateway)
            case Some(result) => row.result == result
            case None => id in t && row.result == t[id].result
  {
    if acts != [] {
      if id in After(t, Front(acts)).table {
        ResultIsLastReport(t, Front(acts), id);
        StepSameRows(After(t, Front(acts)), Last(acts));
      }
    }
  }

  // ---- At most once ----

  /** Marks take effect and no report makes a command pending again. */
  predicate Reliable(a: Act) {
    (a.Mark? ==> a.applied) && (a.Report? ==> a.status != Pending)
  }

  ghost predicate AllReliable(acts: seq<Act>) {
    forall i | 0 <= i < |acts| :: Reliable(acts[i])
  }

  predicate IsPending(t: Table, id: string) {
    id in t && t[id].status == Pending
  }

  ghost predicate MarkedNotPending(t: Table, c: Call) {
    c.marked <= |c.ids| && forall i | 0 <= i < c.marked :: c.ids[i] in t && !IsPending(t, c.ids[i])
  }

  ghost predicate AllMarkedNotPending(s: State) {
    forall call | call in s.calls ::
      && MarkedNotPending(s.table, s.calls[call])
      && (s.calls[call].phase.Returned? ==> s.calls[call].marked == |s.calls[call].ids|)
  }

  lemma StepReliable(s: State, a: Act)
    requires Enabled(s, a) && Reliable(a) && AllMarkedNotPending(s) && CallsOk(s, Selected([]) + s.table.Keys)
    ensures AllMarkedNotPending(Step(s, a))
  {
    var u := Step(s, a).table;
    forall id | id in s.table && !IsPending(s.table, id) ensures id in u && !IsPending(u, id) {
    }
    forall call | call in s.calls ensures MarkedNotPending(u, s.calls[call]) {
    }
    if a.Mark? {
      assert CallOk(s.table, s.calls[a.call], Selected([]) + s.table.Keys);
    }
  }

  lemma {:induction false} CallsHeld(t: Table, acts: seq<Act>)
    requires Legal(t, acts)
    ensures CallsOk(After(t, acts), After(t, acts).table.Keys)
  {
    if acts != [] {
      var s, a := After(t, Front(acts)), Last(acts);
      CallsHeld(t, Front(acts));
      StepSameRows(s, a);
      if a.Select? {
        forall i: nat | i < |a.ids| ensures a.ids[i] in s.table {
          FetchedIsPending(s.table, a.gateway, a.ids, i);
        }
      }
      CallsStep(s, a, s.table.Keys, After(t, acts).table.Keys);
    }
  }

  lemma {:induction false} MarkedStayMarked(t: Table, acts: seq<Act>)
    requires Legal(t, acts) && AllReliable(acts)
    ensures AllMarkedNotPending(After(t, acts))
  {
    if acts != [] {
      MarkedStayMarked(t, Front(acts));
      CallsHeld(t, Front(acts));
      assert Selected([]) + After(t, Front(acts)).table.Keys == After(t, Front(acts)).table.Keys;
      assert Reliable(acts[|acts| - 1]);
      StepReliable(After(t, Front(acts)), Last(acts));
    }
  }

  /** The commands of a call that it has not tried to mark yet. */
  function Unmarked(c: Call): seq<string> {
    if c.marked <= |c.ids| then c.ids[c.marked..] else []
  }

  ghost predicate Disjoint(a: seq<string>, b: seq<string>) {
    forall id | id in a :: id !in b
  }

  /** A select can only meet a command of an earlier call that this call has not marked yet. */
  lemma OnlyUnmarkedSelectedAgain(t: Table, acts: seq<Act>, call: nat, again: Act)
    requires Legal(t, acts) && AllReliable(acts) && call in After(t, acts).calls
    requires again.Select? && Enabled(After(t, acts), again)
    ensures var c := After(t, acts).calls[call];
            Disjoint(c.ids, again.ids) <==> Disjoint(Unmarked(c), again.ids)
  {
    var s := After(t, acts);
    var c := s.calls[call];
    MarkedStayMarked(t, acts);
    assert MarkedNotPending(s.table, c);
    forall i: nat | i < |again.ids| ensures IsPending(s.table, again.ids[i]) {
      FetchedIsPending(s.table, again.gateway, again.ids, i);
    }
    assert c.ids == c.ids[..c.marked] + Unmarked(c);
  }

  /** Whatever a call returned is not selected again, also where other calls overlap. */
  lemma ReturnedNotSelectedAgain(t: Table, acts: seq<Act>, call: nat, again: Act)
    requires Legal(t, acts) && AllReliable(acts)
    requires call in After(t, acts).calls && After(t, acts).calls[call].phase.Returned?
    requires again.Select? && Enabled(After(t, acts), again)
    ensures Disjoint(After(t, acts).calls[call].ids, again.ids)
  {
    MarkedStayMarked(t, acts);
    OnlyUnmarkedSelectedAgain(t, acts, call, again);
  }

  /** The calls that have returned their commands. */
  function ReturnedCalls(s: State): set<nat> {
    set call | call in s.calls && s.calls[call].phase.Returned?
  }

  /** No two of the calls have a command in common. */
  ghost predicate OnceAmong(s: State, cs: set<nat>) {
    forall c, d | c in s.calls && d in s.calls && c in cs && d in cs && c != d ::
      Disjoint(s.calls[c].ids, s.calls[d].ids)
  }

  /** No command was returned twice. */
  ghost predicate AtMostOnce(s: State) {
    OnceAmong(s, ReturnedCalls(s))
  }

  /** Among the calls in `cs`, none selects a command that an earlier one has selected and not marked yet. */
  ghost predicate NoneFetchedUnmarked(t: Table, acts: seq<Act>, cs: set<nat>) {
    acts == [] || (
      && NoneFetchedUnmarked(t, Front(acts), cs)
      && (Last(acts).Select? && Last(acts).call in cs ==> AvoidsUnmarked(After(t, Front(acts)), Last(acts).ids, cs)))
  }

  ghost predicate AvoidsUnmarked(s: State, ids: seq<string>, cs: set<nat>) {
    forall call | call in s.calls && call in cs :: Disjoint(Unmarked(s.calls[call]), ids)
  }

  /** The calls that return, of those that have selected by the end of the run. */
  function Returning(t: Table, acts: seq<Act>): set<nat> {
    ReturnedCalls(After(t, acts))
  }

  /**
   Where marks take effect and no report writes `pending`: each command is returned at most once
   exactly if, among the calls that return, none selects a command that an earlier one has selected
   and not marked yet.
   */
  lemma AtMostOnceIff(t: Table, acts: seq<Act>)
    requires Legal(t, acts) && AllReliable(acts)
    ensures AtMostOnce(After(t, acts)) <==> NoneFetchedUnmarked(t, acts, Returning(t, acts))
  {
    OnceAmongIff(t, acts, Returning(t, acts));
  }

  lemma {:induction false} OnceAmongIff(t: Table, acts: seq<Act>, cs: set<nat>)
    requires Legal(t, acts) && AllReliable(acts)
    ensures OnceAmong(After(t, acts), cs) <==> NoneFetchedUnmarked(t, acts, cs)
  {
    if acts != [] {
      var s, a := After(t, Front(acts)), Last(acts);
      OnceAmongIff(t, Front(acts), cs);
      if a.Select? {
        forall call | call in s.calls
          ensures Disjoint(s.calls[call].ids, a.ids) <==> Disjoint(Unmarked(s.calls[call]), a.ids)
        {
          OnlyUnmarkedSelectedAgain(t, Front(acts), call, a);
        }
      }
      OnceStep(s, a, cs);
    }
  }

  /** Each call selects after all earlier ones of its gateway have returned or failed. */
  ghost predicate Sequential(t: Table, acts: seq<Act>) {
    acts == [] || (
      && Sequential(t, Front(acts))
      && (Last(acts).Select? ==> NoneRunning(After(t, Front(acts)), Last(acts).gateway)))
  }

  ghost predicate NoneRunning(s: State, gateway: string) {
    forall call | call in s.calls && s.calls[call].gateway == gateway :: !s.calls[call].phase.Running?
  }

  /** A gateway that asks again only when its last call is over gets each command at most once, whatever others do. */
  lemma SequentialAtMostOnce(t: Table, acts: seq<Act>)
    requires Legal(t, acts) && AllReliable(acts) && Sequential(t, acts)
    ensures AtMostOnce(After(t, acts))
  {
    SequentialAvoids(t, acts, Returning(t, acts));
    AtMostOnceIff(t, acts);
  }

  ghost predicate NoneAborted(s: State, cs: set<nat>) {
    forall call | call in s.calls && call in cs :: !s.calls[call].phase.Aborted?
  }

  lemma {:induction false} SequentialAvoids(t: Table, acts: seq<Act>, cs: set<nat>)
    requires Legal(t, acts) && AllReliable(acts) && Sequential(t, acts) && NoneAborted(After(t, acts), cs)
    ensures NoneFetchedUnmarked(t, acts, cs)
  {
    if acts != [] {
      var s, a := After(t, Front(acts)), Last(acts);
      assert forall call | call in s.calls && s.calls[call].phase.Aborted? ::
          call in Step(s, a).calls && Step(s, a).calls[call].phase.Aborted?;
      SequentialAvoids(t, Front(acts), cs);
      MarkedStayMarked(t, Front(acts));
      if a.Select? {
        forall call | call in s.calls && call in cs ensures Disjoint(Unmarked(s.calls[call]), a.ids) {
          if s.calls[call].gateway != a.gateway {
            OtherGateways(t, Front(acts), call, a);
          }
        }
      }
    }
  }

  /** Calls of different gateways never meet. */
  lemma OtherGateways(t: Table, acts: seq<Act>, call: nat, a: Act)
    requires Legal(t, acts) && a.Select? && Enabled(After(t, acts), a)
    requires call in After(t, acts).calls && After(t, acts).calls[call].gateway != a.gateway
    ensures Disjoint(After(t, acts).calls[call].ids, a.ids)
  {
    var s := After(t, acts);
    CallsHeld(t, acts);
    assert CallOk(s.table, s.calls[call], s.table.Keys);
    forall i: nat | i < |a.ids| ensures a.ids[i] in s.table && s.table[a.ids[i]].gateway == a.gateway {
      FetchedIsPending(s.table, a.gateway, a.ids, i);
    }
  }

  lemma OnceStep(s: State, a: Act, cs: set<nat>)
    requires Enabled(s, a)
    ensures OnceAmong(Step(s, a), cs) <==>
            && OnceAmong(s, cs)
            && (a.Select? && a.call in cs ==>
                  forall call | call in s.calls && call in cs :: Disjoint(s.calls[call].ids, a.ids))
  {
    var u := Step(s, a);
    assert forall c | c in s.calls :: c in u.calls && u.calls[c].ids == s.calls[c].ids;
    if OnceAmong(u, cs) {
      forall c, d | c in s.calls && d in s.calls && c in cs && d in cs && c != d
        ensures Disjoint(s.calls[c].ids, s.calls[d].ids)
      {
        assert Disjoint(u.calls[c].ids, u.calls[d].ids);
      }
      if a.Select? && a.call in cs {
        forall call | call in s.calls && call in cs ensures Disjoint(s.calls[call].ids, a.ids) {
          assert Disjoint(u.calls[call].ids, u.calls[a.call].ids);
        }
      }
    }
  }

  // ---- A call by itself ----

  /** The acts can follow in state `s`, and lead to `u`. */
  ghost predicate Follows(s: State, acts: seq<Act>, u: State)
    decreases |acts|
  {
    if acts == [] then s == u else Enabled(s, acts[0]) && Follows(Step(s, acts[0]), acts[1..], u)
  }

  lemma {:induction false} FollowInRun(t: Table, acts: seq<Act>, more: seq<Act>, u: State)
    requires Legal(t, acts) && Follows(After(t, acts), more, u)
    ensures Legal(t, acts + more) && After(t, acts + more) == u
    decreases |more|
  {
    if more == [] {
      assert acts + more == acts;
    } else {
      var next := acts + [more[0]];
      assert Front(next) == acts && Last(next) == more[0];
      assert next + more[1..] == acts + more;
      FollowInRun(t, next, more[1..], u);
    }
  }

  /** The marks of a call from mark `i` on, and its return. */
  lemma {:induction false} MarksFollow(s: State, call: nat, c: Call, applied: seq<bool>) returns (acts: seq<Act>)
    requires call in s.calls && s.calls[call] == c && c.phase.Running? && c.marked <= |c.ids| == |applied|
    ensures Follows(s, acts, State(Marked(s.table, c.ids[c.marked..], applied[c.marked..]),
            s.calls[call := c.(marked := |c.ids|, phase := Returned)]))
    decreases |c.ids| - c.marked
  {
    var i := c.marked;
    if i == |c.ids| {
      acts := [Return(call)];
      assert acts[1..] == [];
    } else {
      assert c.ids[i..][1..] == c.ids[i + 1..] && applied[i..][1..] == applied[i + 1..];
      var a, next := Mark(call, c.ids[i], applied[i]), c.(marked := i + 1);
      var rest := MarksFollow(Step(s, a), call, next, applied);
      assert s.calls[call := next][call := next.(marked := |c.ids|, phase := Returned)] ==
          s.calls[call := c.(marked := |c.ids|, phase := Returned)];
      acts := [a] + rest;
      assert acts[1..] == rest;
    }
  }

  /** The statements of a call that no other call interrupts do what the call as a whole does. */
  lemma CallInRun(t: Table, acts: seq<Act>, call: nat, gateway: string, ids: seq<string>, applied: seq<bool>)
    returns (more: seq<Act>)
    requires Legal(t, acts) && call !in After(t, acts).calls
    requires Fetches(After(t, acts).table, gateway, ids) && |applied| == |ids|
    ensures Legal(t, acts + more)
    ensures After(t, acts + more) ==
            State(Marked(After(t, acts).table, ids, applied),
                After(t, acts).calls[call := Call(gateway, ids, |ids|, Returned)])
  {
    more := CallFollows(After(t, acts), call, gateway, ids, applied);
    FollowInRun(t, acts, more, State(Marked(After(t, acts).table, ids, applied),
        After(t, acts).calls[call := Call(gateway, ids, |ids|, Returned)]));
  }

  lemma CallFollows(s: State, call: nat, gateway: string, ids: seq<string>, applied: seq<bool>) returns (acts: seq<Act>)
    requires call !in s.calls && Fetches(s.table, gateway, ids) && |applied| == |ids|
    ensures Follows(s, acts, State(Marked(s.table, ids, applied), s.calls[call := Call(gateway, ids, |ids|, Returned)]))
  {
    var first, c := Select(call, gateway, ids), Call(gateway, ids, 0, Running);
    var rest := MarksFollow(Step(s, first), call, c, applied);
    assert ids[0..] == ids && applied[0..] == applied;
    assert s.calls[call := c][call := Call(gateway, ids, |ids|, Returned)] ==
        s.calls[call := Call(gateway, ids, |ids|, Returned)];
    acts := [first] + rest;
    assert acts[1..] == rest;
  }

  // ---- Calls that overlap ----

  lemma Extend(t: Table, acts: seq<Act>, a: Act)
    requires Legal(t, acts) && AllReliable(acts) && Enabled(After(t, acts), a) && Reliable(a)
    ensures Legal(t, acts + [a]) && AllReliable(acts + [a]) && After(t, acts + [a]) == Step(After(t, acts), a)
  {
    assert Front(acts + [a]) == acts;
  }

  lemma OnlyOneFetched(t: Table, id: string)
    requires t.Keys == {id} && t[id].status == Pending
    ensures Fetches(t, t[id].gateway, [id])
  {
    assert PendingOf(t, t[id].gateway) == {id};
    assert Selects(t, t[id].gateway, [id], LIMIT);
  }

  /** Two calls select the same command, and one of them returns it. */
  lemma TwoSelects(id: string, row: Row) returns (acts: seq<Act>)
    requires row.status == Pending
    ensures Legal(map[id := row], acts) && AllReliable(acts)
    ensures After(map[id := row], acts) ==
            State(map[id := row.(status := Delivered)],
                map[0 := Call(row.gateway, [id], 1, Returned), 1 := Call(row.gateway, [id], 0, Running)])
  {
    var t, g := map[id := row], row.gateway;
    OnlyOneFetched(t, id);
    Extend(t, [], Select(0, g, [id]));
    acts := [] + [Select(0, g, [id])];
    Extend(t, acts, Select(1, g, [id]));
    acts := acts + [Select(1, g, [id])];
    Extend(t, acts, Mark(0, id, true));
    acts := acts + [Mark(0, id, true)];
    Extend(t, acts, Return(0));
    acts := acts + [Return(0)];
  }

  /**
   Two calls that overlap both return a pending command, although every statement takes effect, and the
   mark of the slower one overwrites the status the gateway reported in between.
   */
  lemma OverlappingCalls(id: string, row: Row, status: Status) returns (acts: seq<Act>)
    requires row.status == Pending && status != Pending
    ensures Legal(map[id := row], acts) && AllReliable(acts) && Report(row.gateway, id, status, "ok", true) in acts
    ensures After(map[id := row], acts) ==
            State(map[id := row.(status := Delivered, result := "ok")],
                  map[0 := Call(row.gateway, [id], 1, Returned), 1 := Call(row.gateway, [id], 1, Returned)])
  {
    var t, report := map[id := row], Report(row.gateway, id, status, "ok", true);
    acts := TwoSelects(id, row);
    Extend(t, acts, report);
    acts := acts + [report];
    Extend(t, acts, Mark(1, id, true));
    acts := acts + [Mark(1, id, true)];
    Extend(t, acts, Return(1));
    acts := acts + [Return(1)];
  }

  /** A call that overlaps but fails is harmless: its command is returned once, by the other call. */
  lemma FailedCallHarmless(id: string, row: Row) returns (acts: seq<Act>)
    requires row.status == Pending
    ensures Legal(map[id := row], acts) && AllReliable(acts) && AtMostOnce(After(map[id := row], acts))
    ensures After(map[id := row], acts) ==
            State(map[id := row.(status := Delivered)],
                  map[0 := Call(row.gateway, [id], 1, Returned), 1 := Call(row.gateway, [id], 0, Aborted)])
  {
    acts := TwoSelects(id, row);
    Extend(map[id := row], acts, Fail(1));
    acts := acts + [Fail(1)];
    assert ReturnedCalls(After(map[id := row], acts)) == {0};
  }

  /** A server that dies between the marks and the return leaves a command delivered that nobody returned. */
  lemma DeadCallLoses(id: string, row: Row) returns (acts: seq<Act>)
    requires row.status == Pending
    ensures Legal(map[id := row], acts) && AllReliable(acts)
    ensures After(map[id := row], acts) ==
            State(map[id := row.(status := Delivered)], map[0 := Call(row.gateway, [id], 1, Aborted)])
  {
    var t, g := map[id := row], row.gateway;
    OnlyOneFetched(t, id);
    Extend(t, [], Select(0, g, [id]));
    acts := [] + [Select(0, g, [id])];
    Extend(t, acts, Mark(0, id, true));
    acts := acts + [Mark(0, id, true)];
    Extend(t, acts, Fail(0));
    acts := acts + [Fail(0)];
  }
}
