/** What a client may observe of a multicast delegate: a log of registrations, removals,
    broadcasts and calls, and the simple machine that says which logs are acceptable. */
module DelegateLog {
  import opened Options
  import opened DelegateState

  datatype Event =
    | Added(registration: Registration)
    | Removed(serial: nat)
    | Began
    | Called(registration: Registration)
    | Ended
    | Reset(callback: Callback)
    | Refused(full: bool)

  /** A plain ordered list of registrations, the listeners still to be considered by each open
      broadcast (innermost last), and the number of the next registration. */
  datatype Machine = Machine(list: seq<Registration>, open: seq<seq<Registration>>, next: nat)

  const EMPTY: Machine := Machine([], [], 0)

  /** Position of the first listener whose serial is in `listed`; the length if there is none. */
  ghost function FirstListed(listeners: seq<Registration>, listed: set<nat>): (k: nat)
    ensures k <= |listeners|
  {
    if listeners == [] || listeners[0].serial in listed then 0
    else 1 + FirstListed(listeners[1..], listed)
  }

  /** A new registration gets a handle no other one has; a broadcast starts from the list as it
      is, next calls the first listener of its start that is still listed, and ends only when
      none is left; a callback is reset only when no broadcast is open. An addition may be refused,
      `full` when every slot is taken, and then changes nothing. */
  ghost function Step(m: Machine, e: Event): Option<Machine> {
    match e
    case Added(r) =>
      if r.serial == m.next && forall k :: 0 <= k < |m.list| ==> m.list[k].handle != r.handle
      then Some(m.(list := m.list + [r], next := m.next + 1)) else None
    case Removed(serial) =>
      if serial in Serials(m.list) then Some(m.(list := Without(m.list, serial))) else None
    case Began => Some(m.(open := m.open + [m.list]))
    case Called(r) =>
      if m.open == [] then None else
        var last := |m.open| - 1;
        var k := FirstListed(m.open[last], Serials(m.list));
        if k < |m.open[last]| && m.open[last][k] == r
        then Some(m.(open := m.open[last := m.open[last][k + 1..]])) else None
    case Ended =>
      if m.open == [] then None else
        var last := |m.open| - 1;
        if FirstListed(m.open[last], Serials(m.list)) == |m.open[last]|
        then Some(m.(open := m.open[..last])) else None
    case Reset(_) => if m.open == [] then Some(m) else None
    case Refused(_) => Some(m)
  }

  ghost function Replay(log: seq<Event>): Option<Machine> {
    if log == [] then Some(EMPTY)
    else match Replay(log[..|log| - 1])
      case None => None
      case Some(m) => Step(m, log[|log| - 1])
  }

  lemma ReplayOne(log: seq<Event>, e: Event)
    ensures Replay(log + [e]) == match Replay(log) case None => None case Some(m) => Step(m, e)
  {
    assert (log + [e])[..|log|] == log;
  }

  lemma {:induction false} FirstListedSplits(listeners: seq<Registration>, listed: set<nat>)
    ensures var k := FirstListed(listeners, listed);
            Keep(listeners, listed)
            == if k < |listeners| then [listeners[k]] + Keep(listeners[k + 1..], listed) else []
    decreases |listeners|
  {
    if listeners != [] && listeners[0].serial !in listed {
      FirstListedSplits(listeners[1..], listed);
      var k := FirstListed(listeners[1..], listed);
      if k < |listeners[1..]| {
        assert listeners[1..][k + 1..] == listeners[k + 2..];
      }
    }
  }

  // ---------------------------------------------------------------------------
  // Stretches of a log
  // ---------------------------------------------------------------------------

  /** The machine after the first `n` events of an accepted log. */
  ghost function At(log: seq<Event>, n: nat): (m: Machine)
    requires n <= |log| && Replay(log) != None
  {
    PrefixAccepted(log, n);
    Replay(log[..n]).value
  }

  lemma {:induction false} PrefixAccepted(log: seq<Event>, n: nat)
    requires n <= |log| && Replay(log) != None
    ensures Replay(log[..n]) != None
    decreases |log|
  {
    if n == |log| {
      assert log[..n] == log;
    } else {
      assert log[..|log| - 1][..n] == log[..n];
      PrefixAccepted(log[..|log| - 1], n);
    }
  }

  lemma NextMachine(log: seq<Event>, n: nat)
    requires n < |log| && Replay(log) != None
    ensures Step(At(log, n), log[n]) == Some(At(log, n + 1))
  {
    PrefixAccepted(log, n + 1);
    assert log[..n + 1][..n] == log[..n];
  }

  /** A longer log has the same machines at the positions of a shorter one. */
  lemma SamePrefix(short: seq<Event>, long: seq<Event>, n: nat)
    requires short <= long && n <= |short| && Replay(long) != None && Replay(short) != None
    ensures At(long, n) == At(short, n)
  {
    assert long[..n] == short[..n];
  }

  /** `after` continues `before`, and all along at least `depth` broadcasts are open. */
  ghost predicate Grows(before: seq<Event>, after: seq<Event>, depth: nat) {
    && before <= after
    && Replay(before) != None
    && Replay(after) != None
    && forall n: nat :: |before| <= n <= |after| ==> |At(after, n).open| >= depth
  }

  lemma GrowsReflexive(log: seq<Event>, depth: nat)
    requires Replay(log) != None && |Replay(log).value.open| >= depth
    ensures Grows(log, log, depth)
  {
    assert log[..|log|] == log;
  }

  lemma GrowsTransitive(a: seq<Event>, b: seq<Event>, c: seq<Event>, depth: nat)
    requires Grows(a, b, depth) && Grows(b, c, depth)
    ensures Grows(a, c, depth)
  {
    forall n: nat | |a| <= n <= |c| ensures |At(c, n).open| >= depth {
      if n <= |b| {
        SamePrefix(b, c, n);
      }
    }
  }

  lemma GrowsByOne(log: seq<Event>, e: Event, depth: nat)
    requires Replay(log) != None && |Replay(log).value.open| >= depth
    requires Replay(log + [e]) != None && |Replay(log + [e]).value.open| >= depth
    ensures Grows(log, log + [e], depth)
  {
    assert (log + [e])[..|log|] == log && (log + [e])[..|log| + 1] == log + [e];
  }

  /** Between positions `from` and `to` of the log lies one whole broadcast. */
  ghost predicate IsBroadcast(log: seq<Event>, b: nat, e: nat) {
    && b < e < |log|
    && Replay(log) != None
    && log[b] == Began && log[e] == Ended && |At(log, e).open| == |At(log, b).open| + 1
    && forall n: nat :: b < n <= e ==> |At(log, n).open| > |At(log, b).open|
  }

  /** A stretch between its opening and closing events is a whole broadcast, in every longer log too. */
  lemma WholeBroadcast(before: seq<Event>, inside: seq<Event>, after: seq<Event>)
    requires Replay(before) != None && Replay(before + [Began]) != None
    requires Grows(before + [Began], inside, |Replay(before).value.open| + 1)
    requires |Replay(inside).value.open| == |Replay(before).value.open| + 1
    requires inside + [Ended] <= after && Replay(after) != None
    ensures IsBroadcast(after, |before|, |inside|) && At(after, |before|) == Replay(before).value
  {
    hide Replay, Step;
    assert (before + [Began])[..|before|] == before == after[..|before|];
    assert inside[..|inside|] == inside == after[..|inside|];
    assert after[|before|] == (before + [Began])[|before|] && after[|inside|] == (inside + [Ended])[|inside|];
    forall n: nat | |before| < n <= |inside| ensures |At(after, n).open| > |At(after, |before|).open| {
      assert after[..n] == inside[..n] && |At(inside, n).open| > |Replay(before).value.open|;
    }
  }

  /** The calls a broadcast makes itself, leaving out those of broadcasts nested in it. */
  ghost function OwnCalls(log: seq<Event>, b: nat, e: nat, depth: nat): seq<Registration>
    requires b <= e <= |log| && Replay(log) != None
    decreases e
  {
    if b == e then [] else (
      var own := log[e - 1].Called? && |At(log, e - 1).open| == depth;
      OwnCalls(log, b, e - 1, depth) + if own then [log[e - 1].registration] else []
    )
  }

  /** Serials of an accepted log are below the next number and listed in order. */
  ghost predicate Sound(m: Machine) {
    && Ordered(m.list)
    && (forall k :: 0 <= k < |m.list| ==> m.list[k].serial < m.next)
  }

  lemma StepKeepsSound(m: Machine, e: Event)
    requires Sound(m) && Step(m, e).Some?
    ensures Sound(Step(m, e).value)
    ensures forall x :: x in Serials(Step(m, e).value.list) && x < m.next ==> x in Serials(m.list)
    ensures forall x :: x in Serials(m.list) && e != Removed(x) ==> x in Serials(Step(m, e).value.list)
    ensures m.next <= Step(m, e).value.next
    ensures e.Removed? ==> e.serial !in Serials(Step(m, e).value.list) && e.serial < m.next
  {
    match e
    case Added(r) => SerialsAppend(m.list, r);
    case Removed(serial) =>
      var j: nat :| j < |m.list| && m.list[j].serial == serial;
      SerialsWithout(m.list, j);
    case _ =>
  }

  lemma SerialsAppend(list: seq<Registration>, r: Registration)
    ensures Serials(list + [r]) == Serials(list) + {r.serial}
  {
    forall x | x in Serials(list) + {r.serial} ensures x in Serials(list + [r]) {
      if x in Serials(list) {
        var k: nat :| k < |list| && list[k].serial == x;
        assert (list + [r])[k].serial == x;
      } else {
        assert (list + [r])[|list|].serial == x;
      }
    }
  }

  lemma SerialsWithout(list: seq<Registration>, j: nat)
    requires Ordered(list) && j < |list|
    ensures var list' := Without(list, list[j].serial);
            && Serials(list') == Serials(list) - {list[j].serial}
            && Ordered(list')
            && (forall k :: 0 <= k < |list'| ==> list'[k] in list)
  {
    WithoutDeletes(list, j);
    var list' := Without(list, list[j].serial);
    WithoutOrdered(list, j);
    hide Without;
    forall x | x in Serials(list) - {list[j].serial} ensures x in Serials(list') {
      var k: nat :| k < |list| && list[k].serial == x;
      assert list[k] in list';
      var i: nat :| i < |list'| && list'[i] == list[k];
    }
    forall x | x in Serials(list') ensures x in Serials(list) - {list[j].serial} {
      var i: nat :| i < |list'| && list'[i].serial == x;
      assert list'[i] in list;
      var k: nat :| k < |list| && list[k] == list'[i];
    }
  }

  lemma WithoutOrdered(list: seq<Registration>, j: nat)
    requires Ordered(list) && j < |list|
    requires Without(list, list[j].serial) == list[..j] + list[j + 1..]
    ensures Ordered(Without(list, list[j].serial))
  {
    var list' := list[..j] + list[j + 1..];
    hide Without;
    forall i: nat, k: nat | i < k < |list'| ensures list'[i].serial < list'[k].serial {
      assert list'[i] == list[if i < j then i else i + 1];
      assert list'[k] == list[if k < j then k else k + 1];
    }
  }

  lemma {:induction false} AlwaysSound(log: seq<Event>, n: nat)
    requires n <= |log| && Replay(log) != None
    ensures Sound(At(log, n))
    decreases n
  {
    if n > 0 {
      AlwaysSound(log, n - 1);
      NextMachine(log, n - 1);
      StepKeepsSound(At(log, n - 1), log[n - 1]);
    }
  }

  /** A registration once removed is never listed again. */
  lemma {:induction false} RemovedStaysOut(log: seq<Event>, p: nat, n: nat)
    requires p < n <= |log| && Replay(log) != None && log[p].Removed?
    ensures log[p].serial !in Serials(At(log, n).list) && log[p].serial < At(log, n).next
    decreases n
  {
    hide Step, Replay, Sound, At;
    AlwaysSound(log, n - 1);
    NextMachine(log, n - 1);
    StepKeepsSound(At(log, n - 1), log[n - 1]);
    if p < n - 1 {
      RemovedStaysOut(log, p, n - 1);
    }
  }

  /** A listed registration leaves the list only by its removal. */
  lemma {:induction false} ListedUntilRemoved(log: seq<Event>, b: nat, n: nat, x: nat)
    requires b <= n <= |log| && Replay(log) != None && x in Serials(At(log, b).list)
    ensures x in Serials(At(log, n).list) || exists p: nat :: b <= p < n && log[p] == Removed(x)
    decreases n
  {
    hide Step, Replay, Sound, At;
    if b < n {
      ListedUntilRemoved(log, b, n - 1, x);
      AlwaysSound(log, n - 1);
      NextMachine(log, n - 1);
      StepKeepsSound(At(log, n - 1), log[n - 1]);
      if log[n - 1] == Removed(x) {
        assert b <= n - 1 < n;
      }
    }
  }

  ghost predicate RemovedBetween(log: seq<Event>, b: nat, n: nat, serial: nat) {
    exists p: nat :: b < p < n && p < |log| && log[p] == Removed(serial)
  }

  /** Part way through a broadcast that began at `b`: the calls made and the listeners
      remaining are all from the list at the start, in its order, and every listener of the
      start is among them unless it was removed meanwhile. */
  ghost predicate PartWay(log: seq<Event>, b: nat, n: nat)
    requires b < n <= |log| && Replay(log) != None
  {
    var depth := |At(log, b).open| + 1;
    && depth <= |At(log, n).open|
    && Accounts(log, b, n, At(log, b).list, OwnCalls(log, b + 1, n, depth) + At(log, n).open[depth - 1])
  }

  ghost predicate Accounts(log: seq<Event>, b: nat, n: nat, list: seq<Registration>, seen: seq<Registration>) {
    && Ordered(seen)
    && (forall r :: r in seen ==> r in list)
    && (forall r :: r in list ==> r in seen || RemovedBetween(log, b, n, r.serial))
  }

  /** Of what was accounted for, a stretch may be dropped whose listeners were all removed. */
  lemma DropSkipped(log: seq<Event>, b: nat, n: nat, n': nat, list: seq<Registration>,
                    calls: seq<Registration>, top: seq<Registration>, k: nat)
    requires Accounts(log, b, n, list, calls + top) && k <= |top| && n <= n'
    requires forall j: nat :: j < k ==> RemovedBetween(log, b, n', top[j].serial)
    ensures Accounts(log, b, n', list, calls + top[k..])
  {
    var all, kept := calls + top, calls + top[k..];
    forall i: nat, j: nat | i < j < |kept| ensures kept[i].serial < kept[j].serial {
      var i', j' := if i < |calls| then i else i + k, if j < |calls| then j else j + k;
      assert kept[i] == all[i'] && kept[j] == all[j'];
    }
    forall r | r in list ensures r in kept || RemovedBetween(log, b, n', r.serial) {
      if r in all {
        var i: nat :| i < |all| && all[i] == r;
        if i < |calls| {
          assert kept[i] == r;
        } else if i - |calls| >= k {
          assert kept[i - k] == r;
        } else {
          assert top[i - |calls|] == r;
        }
      } else {
        LaterToo(log, b, n, n', r.serial);
      }
    }
  }

  lemma LaterToo(log: seq<Event>, b: nat, n: nat, n': nat, serial: nat)
    requires RemovedBetween(log, b, n, serial) && n <= n'
    ensures RemovedBetween(log, b, n', serial)
  {
  }

  /** Listeners skipped because they were no longer listed were removed since the start. */
  lemma SkippedWereRemoved(log: seq<Event>, b: nat, n: nat, calls: seq<Registration>, top: seq<Registration>, k: nat)
    requires b < n <= |log| && Replay(log) != None && log[b] == Began
    requires Accounts(log, b, n, At(log, b).list, calls + top)
    requires k == FirstListed(top, Serials(At(log, n).list))
    ensures forall j: nat :: j < k ==> RemovedBetween(log, b, n, top[j].serial)
  {
    hide Replay, Step, At, RemovedBetween, Ordered, Serials;
    forall j: nat | j < k ensures RemovedBetween(log, b, n, top[j].serial) {
      FirstIsFirst(top, Serials(At(log, n).list), j);
      assert (calls + top)[|calls| + j] == top[j];
      SkippedWasRemoved(log, b, n, top[j]);
    }
  }

  lemma SkippedWasRemoved(log: seq<Event>, b: nat, n: nat, r: Registration)
    requires b < n <= |log| && Replay(log) != None && log[b] == Began
    requires r in At(log, b).list && r.serial !in Serials(At(log, n).list)
    ensures RemovedBetween(log, b, n, r.serial)
  {
    hide Replay, Step, At;
    var list := At(log, b).list;
    var i: nat :| i < |list| && list[i] == r;
    assert r.serial in Serials(list);
    ListedUntilRemoved(log, b, n, r.serial);
    var p: nat :| b <= p < n && log[p] == Removed(r.serial);
    assert p != b;
  }

  lemma {:induction false} FirstIsFirst(listeners: seq<Registration>, listed: set<nat>, j: nat)
    requires j < FirstListed(listeners, listed)
    ensures j < |listeners| && listeners[j].serial !in listed
    decreases |listeners|
  {
    if j > 0 {
      FirstIsFirst(listeners[1..], listed, j - 1);
    }
  }

  lemma {:induction false} EveryMomentPartWay(log: seq<Event>, b: nat, e: nat, n: nat)
    requires IsBroadcast(log, b, e) && b < n <= e
    ensures PartWay(log, b, n)
    decreases n
  {
    hide Replay, At, Step, PartWay;
    if n == b + 1 {
      StartPartWay(log, b);
    } else {
      EveryMomentPartWay(log, b, e, n - 1);
      if log[n - 1].Called? && |At(log, n - 1).open| == |At(log, b).open| + 1 {
        OwnCallPartWay(log, b, n);
      } else {
        QuietPartWay(log, b, n);
      }
    }
  }

  lemma StartPartWay(log: seq<Event>, b: nat)
    requires b < |log| && Replay(log) != None && log[b] == Began
    ensures PartWay(log, b, b + 1)
  {
    hide Replay, At;
    NextMachine(log, b);
    AlwaysSound(log, b);
    var list := At(log, b).list;
    assert [] + list == list;
  }

  lemma OwnCallPartWay(log: seq<Event>, b: nat, n: nat)
    requires b + 1 < n <= |log| && Replay(log) != None && log[b] == Began && PartWay(log, b, n - 1)
    requires log[n - 1].Called? && |At(log, n - 1).open| == |At(log, b).open| + 1
    ensures PartWay(log, b, n)
  {
    hide Replay, At, Accounts, Serials;
    NextMachine(log, n - 1);
    var depth := |At(log, b).open| + 1;
    var m, calls := At(log, n - 1), OwnCalls(log, b + 1, n - 1, depth);
    var top := m.open[depth - 1];
    var k := FirstListed(top, Serials(m.list));
    SkippedWereRemoved(log, b, n - 1, calls, top, k);
    LaterForAll(log, b, n - 1, n, top, k);
    DropSkipped(log, b, n - 1, n, At(log, b).list, calls, top, k);
    assert calls + [top[k]] + top[k + 1..] == calls + top[k..];
  }

  lemma LaterForAll(log: seq<Event>, b: nat, n: nat, n': nat, top: seq<Registration>, k: nat)
    requires n <= n' && k <= |top| && forall j: nat :: j < k ==> RemovedBetween(log, b, n, top[j].serial)
    ensures forall j: nat :: j < k ==> RemovedBetween(log, b, n', top[j].serial)
  {
    hide RemovedBetween;
    forall j: nat | j < k ensures RemovedBetween(log, b, n', top[j].serial) {
      LaterToo(log, b, n, n', top[j].serial);
    }
  }

  /** An event that is not one of the broadcast's own calls changes neither its calls nor
      the listeners it has left. */
  lemma QuietPartWay(log: seq<Event>, b: nat, n: nat)
    requires b + 1 < n <= |log| && Replay(log) != None && PartWay(log, b, n - 1)
    requires |At(log, n).open| > |At(log, b).open|
    requires !(log[n - 1].Called? && |At(log, n - 1).open| == |At(log, b).open| + 1)
    ensures PartWay(log, b, n)
  {
    hide Replay, At, Accounts, Serials, Without;
    NextMachine(log, n - 1);
    var depth := |At(log, b).open| + 1;
    var calls := OwnCalls(log, b + 1, n - 1, depth);
    assert OwnCalls(log, b + 1, n, depth) == calls + [] == calls;
    var top := At(log, n - 1).open[depth - 1];
    assert At(log, n).open[depth - 1] == top;
    assert top[0..] == top;
    DropSkipped(log, b, n - 1, n, At(log, b).list, calls, top, 0);
  }

  /** A whole broadcast calls registrations from the list at its start only, in that list's
      order and so at most once each, and calls every one of them except those removed
      before the broadcast ended. */
  lemma BroadcastCallsStartingListeners(log: seq<Event>, b: nat, e: nat)
    requires IsBroadcast(log, b, e)
    ensures var calls := OwnCalls(log, b + 1, e, |At(log, b).open| + 1);
            && Ordered(calls)
            && (forall r :: r in calls ==> r in At(log, b).list)
            && (forall r :: r in At(log, b).list ==> r in calls || RemovedBetween(log, b, e, r.serial))
  {
    EveryMomentPartWay(log, b, e, e);
    NextMachine(log, e);
    hide Replay, At;
    var m, depth := At(log, e), |At(log, b).open| + 1;
    var calls, top := OwnCalls(log, b + 1, e, depth), m.open[depth - 1];
    SkippedWereRemoved(log, b, e, calls, top, |top|);
    DropSkipped(log, b, e, e, At(log, b).list, calls, top, |top|);
    assert calls + top[|top|..] == calls;
  }

  /** No call reaches a registration removed earlier. */
  lemma NeverCalledAfterRemoval(log: seq<Event>, p: nat, n: nat)
    requires p < n < |log| && Replay(log) != None && log[p].Removed? && log[n].Called?
    ensures log[n].registration.serial != log[p].serial
  {
    RemovedStaysOut(log, p, n);
    NextMachine(log, n);
    var m := At(log, n);
    FirstListedIsListed(m.open[|m.open| - 1], Serials(m.list));
  }

  lemma {:induction false} FirstListedIsListed(listeners: seq<Registration>, listed: set<nat>)
    ensures var k := FirstListed(listeners, listed); k < |listeners| ==> listeners[k].serial in listed
    decreases |listeners|
  {
    if listeners != [] && listeners[0].serial !in listed {
      FirstListedIsListed(listeners[1..], listed);
    }
  }
}
