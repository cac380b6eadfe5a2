/** What client code does with a multicast delegate, and what a log must then show. */
module DelegateScripts {
  import opened DelegateLog
  import opened DelegateState
  import opened Options

  /** What client code may do, at top level or inside a callback. The reactions of a broadcast
      say what each callback it invokes does, in the order of invocation. Since execution is
      deterministic, quantifying over all such trees covers all adaptive callbacks. */
  datatype Operation =
    | DoAdd(callback: Callback, allocationFails: bool)
    | DoRemove(handle: nat)
    | DoClear
    | DoBroadcast(reactions: Reactions)

  datatype Operations = Done | Then(first: Operation, rest: Operations)

  datatype Reactions = NoReactions | React(operations: Operations, later: Reactions)

  // ---------------------------------------------------------------------------
  // Registrations by handle
  // ---------------------------------------------------------------------------

  /** The registrations whose handle is not `handle`, in order. */
  ghost function OtherThan(list: seq<Registration>, handle: nat): seq<Registration> {
    if list == [] then []
    else (if list[0].handle == handle then [] else [list[0]]) + OtherThan(list[1..], handle)
  }

  ghost predicate HasHandle(list: seq<Registration>, handle: nat) {
    exists k :: 0 <= k < |list| && list[k].handle == handle
  }

  ghost predicate HandlesDiffer(list: seq<Registration>) {
    forall j, k :: 0 <= j < k < |list| ==> list[j].handle != list[k].handle
  }

  /** The serial of the first registration with this handle. */
  ghost function SerialOf(list: seq<Registration>, handle: nat): nat {
    if list == [] then 0 else if list[0].handle == handle then list[0].serial else SerialOf(list[1..], handle)
  }

  lemma {:induction false} SerialAt(list: seq<Registration>, j: nat)
    requires HandlesDiffer(list) && j < |list|
    ensures SerialOf(list, list[j].handle) == list[j].serial
    decreases |list|
  {
    if j > 0 {
      assert forall k :: 0 <= k < |list[1..]| ==> list[1..][k] == list[k + 1];
      SerialAt(list[1..], j - 1);
    }
  }

  lemma {:induction false} NoneToRemove(list: seq<Registration>, handle: nat)
    requires !HasHandle(list, handle)
    ensures OtherThan(list, handle) == list
    decreases |list|
  {
    if list != [] {
      assert list[0].handle != handle;
      assert forall k :: 0 <= k < |list[1..]| ==> list[1..][k] == list[k + 1];
      NoneToRemove(list[1..], handle);
    }
  }

  lemma FirstRemoved(list: seq<Registration>)
    requires HandlesDiffer(list) && list != []
    ensures OtherThan(list, list[0].handle) == list[1..]
  {
    NoneToRemove(list[1..], list[0].handle);
  }

  // ---------------------------------------------------------------------------
  // What happened, event by event
  // ---------------------------------------------------------------------------

  /** A machine some way through a list of events, or events that do not fit. */
  datatype Progress = Stuck | Reached(machine: Machine, rest: seq<Event>)

  /** An addition shows its own callback, or that it was refused: because its allocation failed or
      all slots are taken. A removal shows if and only if the handle is listed. Clearing removes all
      that is listed, in order. A broadcast calls its listeners that are still listed, and behind
      its k-th call stands what the k-th reaction does. */
  ghost function Does(op: Operation, m: Machine, events: seq<Event>): Progress
    decreases op, |events|
  {
    match op
    case DoAdd(callback, allocationFails) =>
      if events == [] then Stuck
      else (match events[0]
            case Added(r) =>
              if !allocationFails && r == Registration(m.next, r.handle, callback) && !HasHandle(m.list, r.handle)
              then Reached(m.(list := m.list + [r], next := m.next + 1), events[1..]) else Stuck
            case Refused(full) => if allocationFails || full then Reached(m, events[1..]) else Stuck
            case _ => Stuck)
    case DoRemove(handle) =>
      if !HasHandle(m.list, handle) then Reached(m, events)
      else if events == [] || events[0] != Removed(SerialOf(m.list, handle)) then Stuck
      else Reached(m.(list := OtherThan(m.list, handle)), events[1..])
    case DoClear => Clears(m, events)
    case DoBroadcast(reactions) =>
      if events == [] || events[0] != Began then Stuck
      else Calls(reactions, m.(open := m.open + [m.list]), events[1..])
  }

  ghost function Clears(m: Machine, events: seq<Event>): Progress
    decreases |events|
  {
    if m.list == [] then Reached(m, events)
    else if events == [] || events[0] != Removed(m.list[0].serial) then Stuck
    else Clears(m.(list := m.list[1..]), events[1..])
  }

  /** What is left of the innermost broadcast. */
  ghost function Calls(reactions: Reactions, m: Machine, events: seq<Event>): Progress
    decreases reactions, |events|
  {
    if m.open == [] || events == [] then Stuck
    else
      var last := |m.open| - 1;
      var k := FirstListed(m.open[last], Serials(m.list));
      if k == |m.open[last]| then
        if events[0] == Ended then Reached(m.(open := m.open[..last]), events[1..]) else Stuck
      else if events[0] != Called(m.open[last][k]) then Stuck
      else
        var called := m.(open := m.open[last := m.open[last][k + 1..]]);
        match reactions
        case NoReactions => Calls(NoReactions, called, events[1..])
        case React(operations, later) =>
          match Performs(operations, called, events[1..])
          case Stuck => Stuck
          case Reached(after, rest) => if |rest| < |events| then Calls(later, after, rest) else Stuck
  }

  ghost function Performs(operations: Operations, m: Machine, events: seq<Event>): Progress
    decreases operations, |events|
  {
    match operations
    case Done => Reached(m, events)
    case Then(first, rest) =>
      match Does(first, m, events)
      case Stuck => Stuck
      case Reached(after, left) => Performs(rest, after, left)
  }

  // ---------------------------------------------------------------------------
  // More events behind
  // ---------------------------------------------------------------------------

  ghost function More(p: Progress, tail: seq<Event>): Progress {
    match p
    case Stuck => Stuck
    case Reached(m, rest) => Reached(m, rest + tail)
  }

  lemma Behind(events: seq<Event>, tail: seq<Event>)
    requires events != []
    ensures (events + tail)[0] == events[0] && (events + tail)[1..] == events[1..] + tail
  {
  }

  lemma {:induction false} DoesMore(op: Operation, m: Machine, events: seq<Event>, tail: seq<Event>)
    requires Does(op, m, events).Reached?
    ensures Does(op, m, events + tail) == More(Does(op, m, events), tail)
    ensures |Does(op, m, events).rest| <= |events|
    decreases op, |events|
  {
    if events != [] {
      Behind(events, tail);
    }
    match op
    case DoAdd(_, _) =>
    case DoRemove(_) =>
    case DoClear => ClearsMore(m, events, tail);
    case DoBroadcast(reactions) => CallsMore(reactions, m.(open := m.open + [m.list]), events[1..], tail);
  }

  lemma {:induction false} ClearsMore(m: Machine, events: seq<Event>, tail: seq<Event>)
    requires Clears(m, events).Reached?
    ensures Clears(m, events + tail) == More(Clears(m, events), tail)
    ensures |Clears(m, events).rest| <= |events|
    decreases |events|
  {
    if m.list != [] {
      Behind(events, tail);
      ClearsMore(m.(list := m.list[1..]), events[1..], tail);
    }
  }

  lemma {:induction false} CallsMore(reactions: Reactions, m: Machine, events: seq<Event>, tail: seq<Event>)
    requires Calls(reactions, m, events).Reached?
    ensures Calls(reactions, m, events + tail) == More(Calls(reactions, m, events), tail)
    ensures |Calls(reactions, m, events).rest| <= |events|
    decreases reactions, |events|
  {
    hide FirstListed, Serials;
    Behind(events, tail);
    var last := |m.open| - 1;
    var k := FirstListed(m.open[last], Serials(m.list));
    if k < |m.open[last]| {
      var called := m.(open := m.open[last := m.open[last][k + 1..]]);
      match reactions
      case NoReactions => CallsMore(NoReactions, called, events[1..], tail);
      case React(operations, later) =>
        PerformsMore(operations, called, events[1..], tail);
        var p := Performs(operations, called, events[1..]);
        CallsMore(later, p.machine, p.rest, tail);
    }
  }

  lemma {:induction false} PerformsMore(operations: Operations, m: Machine, events: seq<Event>, tail: seq<Event>)
    requires Performs(operations, m, events).Reached?
    ensures Performs(operations, m, events + tail) == More(Performs(operations, m, events), tail)
    ensures |Performs(operations, m, events).rest| <= |events|
    decreases operations, |events|
  {
    if operations.Then? {
      DoesMore(operations.first, m, events, tail);
      var p := Does(operations.first, m, events);
      PerformsMore(operations.rest, p.machine, p.rest, tail);
    }
  }

  // ---------------------------------------------------------------------------
  // Stretches of a log
  // ---------------------------------------------------------------------------

  /** The events without the resets, which happen when the delegate gets to them. */
  ghost function Visible(events: seq<Event>): seq<Event> {
    if events == [] then []
    else (if events[0].Reset? then [] else [events[0]]) + Visible(events[1..])
  }

  /** What the later log shows beyond the earlier one. */
  ghost function Shown(before: seq<Event>, after: seq<Event>): seq<Event>
    requires before <= after
  {
    Visible(after[|before|..])
  }

  lemma {:induction false} VisibleConcat(a: seq<Event>, b: seq<Event>)
    ensures Visible(a + b) == Visible(a) + Visible(b)
    decreases |a|
  {
    if a == [] {
      assert a + b == b;
    } else {
      Behind(a, b);
      VisibleConcat(a[1..], b);
    }
  }

  lemma ShownThrough(a: seq<Event>, b: seq<Event>, c: seq<Event>)
    requires a <= b <= c
    ensures a <= c && Shown(a, c) == Shown(a, b) + Shown(b, c)
  {
    VisibleConcat(b[|a|..], c[|b|..]);
    assert c[|a|..] == b[|a|..] + c[|b|..];
  }

  lemma ShownOne(log: seq<Event>, e: Event)
    ensures log <= log + [e] && Shown(log, log + [e]) == if e.Reset? then [] else [e]
    ensures Shown(log, log) == []
  {
    assert (log + [e])[|log|..] == [e] && log[|log|..] == [];
    VisibleOne(e);
  }

  lemma VisibleOne(e: Event)
    ensures Visible([e]) == if e.Reset? then [] else [e]
  {
    assert [e][1..] == [];
    assert [e] + [] == [e];
  }

  /** The events between two logs are exactly what the operation does. */
  ghost predicate Did(op: Operation, m: Machine, before: seq<Event>, after: seq<Event>, m': Machine) {
    before <= after && Does(op, m, Shown(before, after)) == Reached(m', [])
  }

  ghost predicate DidAll(operations: Operations, m: Machine, before: seq<Event>, after: seq<Event>, m': Machine) {
    before <= after && Performs(operations, m, Shown(before, after)) == Reached(m', [])
  }

  lemma DidThen(op: Operation, rest: Operations, m: Machine, m1: Machine, m2: Machine,
                a: seq<Event>, b: seq<Event>, c: seq<Event>)
    requires Did(op, m, a, b, m1) && DidAll(rest, m1, b, c, m2)
    ensures DidAll(Then(op, rest), m, a, c, m2)
  {
    ShownThrough(a, b, c);
    DoesMore(op, m, Shown(a, b), Shown(b, c));
    assert [] + Shown(b, c) == Shown(b, c);
  }

  /** Nothing visible follows. */
  lemma DidStill(op: Operation, m: Machine, a: seq<Event>, b: seq<Event>, c: seq<Event>, m': Machine)
    requires Did(op, m, a, b, m') && b <= c && Shown(b, c) == []
    ensures Did(op, m, a, c, m')
  {
    ShownThrough(a, b, c);
    assert Shown(a, b) + [] == Shown(a, b);
  }

  /** Part way through: with the events shown so far, whatever comes next decides as it does from
      where they lead. */
  ghost predicate ClearedTo(m: Machine, seen: seq<Event>, m': Machine) {
    forall tail: seq<Event> :: Clears(m, seen + tail) == Clears(m', tail)
  }

  ghost predicate CalledTo(reactions: Reactions, m: Machine, seen: seq<Event>, pending: Reactions, m': Machine) {
    forall tail: seq<Event> :: Calls(reactions, m, seen + tail) == Calls(pending, m', tail)
  }

  lemma StartTo(reactions: Reactions, m: Machine)
    ensures ClearedTo(m, [], m) && CalledTo(reactions, m, [], reactions, m)
  {
    forall tail: seq<Event> ensures [] + tail == tail {
    }
  }

  lemma ClearedOne(m: Machine, seen: seq<Event>, m': Machine)
    requires ClearedTo(m, seen, m') && m'.list != []
    ensures ClearedTo(m, seen + [Removed(m'.list[0].serial)], m'.(list := m'.list[1..]))
  {
    var e := Removed(m'.list[0].serial);
    forall tail: seq<Event>
      ensures Clears(m, seen + [e] + tail) == Clears(m'.(list := m'.list[1..]), tail)
    {
      assert seen + [e] + tail == seen + ([e] + tail);
      assert ([e] + tail)[1..] == tail;
    }
  }

  lemma ClearedAll(m: Machine, a: seq<Event>, b: seq<Event>, m': Machine)
    requires a <= b && ClearedTo(m, Shown(a, b), m') && m'.list == []
    ensures Did(DoClear, m, a, b, m')
  {
    assert Shown(a, b) + [] == Shown(a, b);
  }

  /** The next call, and what its callback does. */
  lemma CalledOne(reactions: Reactions, m: Machine, seen: seq<Event>, pending: Reactions, m': Machine,
                  called: Machine, events: seq<Event>, after: Machine)
    requires CalledTo(reactions, m, seen, pending, m') && m'.open != []
    requires var last := |m'.open| - 1;
             var k := FirstListed(m'.open[last], Serials(m'.list));
             k < |m'.open[last]| && called == m'.(open := m'.open[last := m'.open[last][k + 1..]])
    requires if pending.React? then Performs(pending.operations, called, events) == Reached(after, [])
             else events == [] && after == called
    ensures var last := |m'.open| - 1;
            var k := FirstListed(m'.open[last], Serials(m'.list));
            CalledTo(reactions, m, seen + ([Called(m'.open[last][k])] + events),
                     if pending.React? then pending.later else NoReactions, after)
  {
    hide FirstListed, Serials, Calls, Performs;
    var last := |m'.open| - 1;
    var k := FirstListed(m'.open[last], Serials(m'.list));
    var e, next := Called(m'.open[last][k]), if pending.React? then pending.later else NoReactions;
    forall tail: seq<Event> ensures Calls(reactions, m, seen + ([e] + events) + tail) == Calls(next, after, tail) {
      assert seen + ([e] + events) + tail == seen + ([e] + (events + tail));
      CallThenRest(pending, m', e, called, events, after, tail);
    }
  }

  lemma CallThenRest(pending: Reactions, m: Machine, e: Event, called: Machine, events: seq<Event>, after: Machine,
                     tail: seq<Event>)
    requires m.open != []
    requires var last := |m.open| - 1;
             var k := FirstListed(m.open[last], Serials(m.list));
             k < |m.open[last]| && e == Called(m.open[last][k])
             && called == m.(open := m.open[last := m.open[last][k + 1..]])
    requires if pending.React? then Performs(pending.operations, called, events) == Reached(after, [])
             else events == [] && after == called
    ensures Calls(pending, m, [e] + (events + tail))
            == Calls(if pending.React? then pending.later else NoReactions, after, tail)
  {
    hide FirstListed, Serials, Performs;
    assert ([e] + (events + tail))[1..] == events + tail;
    if pending.React? {
      PerformsMore(pending.operations, called, events, tail);
      assert [] + tail == tail;
    } else {
      assert events + tail == tail;
    }
  }

  /** The whole broadcast, from the event that begins it to the one that ends it. */
  lemma BroadcastDone(reactions: Reactions, m: Machine, seen: seq<Event>, pending: Reactions, m': Machine,
                      a: seq<Event>, b: seq<Event>)
    requires CalledTo(reactions, m.(open := m.open + [m.list]), seen, pending, m')
    requires m'.open != [] && FirstListed(m'.open[|m'.open| - 1], Serials(m'.list)) == |m'.open[|m'.open| - 1]|
    requires a <= b && Shown(a, b) == [Began] + seen + [Ended]
    ensures Did(DoBroadcast(reactions), m, a, b, m'.(open := m'.open[..|m'.open| - 1]))
  {
    hide FirstListed, Serials;
    assert ([Began] + seen + [Ended])[1..] == seen + [Ended];
    assert [Ended][1..] == [];
  }

  // ---------------------------------------------------------------------------
  // Single operations
  // ---------------------------------------------------------------------------

  ghost predicate Shows(before: seq<Event>, after: seq<Event>, events: seq<Event>) {
    before <= after && Shown(before, after) == events
  }

  lemma ShowsNothing(log: seq<Event>)
    ensures Shows(log, log, [])
  {
    ShownOne(log, Began);
  }

  lemma ShowsThrough(a: seq<Event>, b: seq<Event>, c: seq<Event>, first: seq<Event>, second: seq<Event>)
    requires Shows(a, b, first) && Shows(b, c, second)
    ensures Shows(a, c, first + second)
  {
    ShownThrough(a, b, c);
  }

  lemma DidDone(m: Machine, log: seq<Event>)
    ensures DidAll(Done, m, log, log, m)
  {
    ShownOne(log, Began);
  }

  lemma DidShowNothing(op: Operation, m: Machine, a: seq<Event>, b: seq<Event>, c: seq<Event>, m': Machine)
    requires Did(op, m, a, b, m') && Shows(b, c, [])
    ensures Did(op, m, a, c, m')
  {
    DidStill(op, m, a, b, c, m');
  }

  lemma DidRefuse(callback: Callback, allocationFails: bool, m: Machine, log: seq<Event>, full: bool)
    requires allocationFails || full
    ensures Did(DoAdd(callback, allocationFails), m, log, log + [Refused(full)], m)
  {
    ShownOne(log, Refused(full));
  }

  lemma DidAdd(m: Machine, log: seq<Event>, r: Registration)
    requires r.serial == m.next && !HasHandle(m.list, r.handle)
    ensures Did(DoAdd(r.callback, false), m, log, log + [Added(r)], m.(list := m.list + [r], next := m.next + 1))
  {
    ShownOne(log, Added(r));
  }

  lemma DidRemoveNone(handle: nat, m: Machine, log: seq<Event>)
    requires !HasHandle(m.list, handle)
    ensures Did(DoRemove(handle), m, log, log, m)
  {
    ShownOne(log, Began);
  }

  lemma DidRemove(handle: nat, m: Machine, log: seq<Event>)
    requires HasHandle(m.list, handle)
    ensures Did(DoRemove(handle), m, log, log + [Removed(SerialOf(m.list, handle))],
                m.(list := OtherThan(m.list, handle)))
  {
    ShownOne(log, Removed(SerialOf(m.list, handle)));
  }

  /** The first registration goes. */
  lemma ClearedNext(m: Machine, seen: seq<Event>, from: Machine, now: Machine,
                    a: seq<Event>, b: seq<Event>, c: seq<Event>)
    requires ClearedTo(m, seen, from) && from.list != [] && HandlesDiffer(from.list) && Shows(a, b, seen)
    requires c == b + [Removed(SerialOf(from.list, from.list[0].handle))]
    requires now == from.(list := OtherThan(from.list, from.list[0].handle))
    ensures var seen' := seen + [Removed(from.list[0].serial)]; Shows(a, c, seen') && ClearedTo(m, seen', now)
  {
    hide ClearedTo;
    ClearedOne(m, seen, from);
    FirstRemoved(from.list);
    ShownOne(b, Removed(from.list[0].serial));
    ShownThrough(a, b, c);
  }

  lemma DidClear(m: Machine, seen: seq<Event>, now: Machine, a: seq<Event>, b: seq<Event>)
    requires ClearedTo(m, seen, now) && now.list == [] && Shows(a, b, seen)
    ensures Did(DoClear, m, a, b, now)
  {
    ClearedAll(m, a, b, now);
  }

  /** The innermost broadcast calls the next of its listeners that is still listed. */
  ghost predicate NextCall(m: Machine, r: Registration, m': Machine) {
    m.open != []
    && var last := |m.open| - 1;
       var k := FirstListed(m.open[last], Serials(m.list));
       k < |m.open[last]| && r == m.open[last][k] && m' == m.(open := m.open[last := m.open[last][k + 1..]])
  }

  ghost predicate NoCallLeft(m: Machine) {
    m.open != [] && FirstListed(m.open[|m.open| - 1], Serials(m.list)) == |m.open[|m.open| - 1]|
  }

  /** One call further, with what its callback did. */
  lemma CalledNext(reactions: Reactions, m: Machine, seen: seq<Event>, pending: Reactions, from: Machine,
                   called: Machine, now: Machine, begun: seq<Event>, a: seq<Event>, b: seq<Event>, c: seq<Event>)
    returns (seen': seq<Event>)
    requires CalledTo(reactions, m, seen, pending, from) && Shows(begun, a, seen)
    requires a < b && |b| == |a| + 1 && b[|a|].Called? && NextCall(from, b[|a|].registration, called)
    requires if pending.React? then DidAll(pending.operations, called, b, c, now) else b == c && now == called
    ensures Shows(begun, c, seen')
    ensures CalledTo(reactions, m, seen', if pending.React? then pending.later else NoReactions, now)
  {
    hide FirstListed, Serials, CalledTo;
    var e := b[|a|];
    assert b == a + [e];
    ShownOne(a, e);
    ShownOne(b, e);
    ShownThrough(a, b, c);
    ShownThrough(begun, a, c);
    CalledOne(reactions, m, seen, pending, from, called, Shown(b, c), now);
    seen' := seen + ([e] + Shown(b, c));
  }

  lemma DidBroadcast(reactions: Reactions, m: Machine, seen: seq<Event>, pending: Reactions, last: Machine,
                     now: Machine, before: seq<Event>, begun: seq<Event>, inside: seq<Event>)
    requires CalledTo(reactions, m.(open := m.open + [m.list]), seen, pending, last)
    requires NoCallLeft(last)
    requires now == last.(open := last.open[..|last.open| - 1])
    requires begun == before + [Began] && Shows(begun, inside, seen)
    ensures Did(DoBroadcast(reactions), m, before, inside + [Ended], now)
  {
    hide FirstListed, Serials, CalledTo, Did;
    ShownOne(before, Began);
    ShownOne(inside, Ended);
    ShownThrough(before, begun, inside);
    ShownThrough(before, inside, inside + [Ended]);
    BroadcastDone(reactions, m, seen, pending, last, before, inside + [Ended]);
  }

  // ---------------------------------------------------------------------------
  // A callback that clears
  // ---------------------------------------------------------------------------

  ghost function Removals(list: seq<Registration>): seq<Event> {
    if list == [] then [] else [Removed(list[0].serial)] + Removals(list[1..])
  }

  lemma OneMoved(events: seq<Event>, a: seq<Event>, b: seq<Event>)
    requires events != [] && events[1..] == a + b
    ensures events == [events[0]] + a + b
  {
    assert events == [events[0]] + events[1..];
  }

  lemma {:induction false} ClearsAll(m: Machine, events: seq<Event>)
    requires Clears(m, events).Reached?
    ensures Clears(m, events).machine == m.(list := []) && events == Removals(m.list) + Clears(m, events).rest
    decreases |events|
  {
    if m.list == [] {
      assert m.(list := []) == m;
    } else {
      var next, rest := m.(list := m.list[1..]), Clears(m, events).rest;
      assert Clears(m, events) == Clears(next, events[1..]);
      ClearsAll(next, events[1..]);
      OneMoved(events, Removals(m.list[1..]), rest);
      assert next.(list := []) == m.(list := []);
    }
  }

  lemma {:induction false} NobodyListed(listeners: seq<Registration>)
    ensures FirstListed(listeners, {}) == |listeners|
  {
    if listeners != [] {
      NobodyListed(listeners[1..]);
    }
  }

  lemma OnlyClears(m: Machine, events: seq<Event>)
    ensures Performs(Then(DoClear, Done), m, events) == Clears(m, events)
  {
  }

  lemma FirstClears(later: Reactions, m: Machine, events: seq<Event>, m': Machine)
    requires m.list != [] && m.open != [] && m.open[|m.open| - 1] == m.list
    requires Calls(React(Then(DoClear, Done), later), m, events) == Reached(m', [])
    ensures m' == m.(list := [], open := m.open[..|m.open| - 1])
    ensures events == [Called(m.list[0])] + Removals(m.list) + [Ended]
  {
    hide Clears, Performs, Removals;
    var last := |m.open| - 1;
    assert m.list[0].serial in Serials(m.list);
    assert FirstListed(m.list, Serials(m.list)) == 0;
    var called := m.(open := m.open[last := m.list[1..]]);
    OnlyClears(called, events[1..]);
    ClearsAll(called, events[1..]);
    var cleared := Clears(called, events[1..]);
    assert Serials(cleared.machine.list) == {};
    NobodyListed(m.list[1..]);
    assert cleared.rest == [Ended] + cleared.rest[1..];
    assert called.open[..last] == m.open[..last];
    assert events == [events[0]] + events[1..];
  }

  /** When the first callback clears, no other is called and none stays registered, whatever the
      others would have done. */
  lemma ClearSilencesTheRest(later: Reactions, m: Machine, before: seq<Event>, after: seq<Event>, m': Machine)
    requires m.list != [] && Did(DoBroadcast(React(Then(DoClear, Done), later)), m, before, after, m')
    ensures m' == m.(list := [])
    ensures Shown(before, after) == [Began, Called(m.list[0])] + Removals(m.list) + [Ended]
  {
    hide Calls, Visible, Removals;
    var events, begun := Shown(before, after), m.(open := m.open + [m.list]);
    FirstClears(later, begun, events[1..], m');
    assert begun.open[..|m.open|] == m.open;
    assert events == [Began] + events[1..];
  }
}
