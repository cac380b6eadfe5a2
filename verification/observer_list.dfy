/** The lock-free append-only observer list, as a step machine: one step is one atomic load,
    compare-exchange or store. Any number of threads append and traverse. */
module ObserverLists {
  import opened Options

  /** Nodes are numbered; node 0 is the dummy at the head. A traversal keeps what it has seen. */
  datatype Pc =
    | ResetNext(node: nat)
    | LoadTail(node: nat)
    | LoadNext(node: nat, tail: nat)
    | Recheck(node: nat, tail: nat, seenNext: Option<nat>)
    | Link(node: nat, tail: nat)
    | Swing(node: nat, tail: nat)
    | Help(node: nat, tail: nat, next: nat)
    | Traverse(at: nat, seen: seq<nat>)
    | Traversed(seen: seq<nat>)

  /** `chain` and `position` are history: the nodes linked so far in order, and where each one
      stands; `count` is the number of the next node to be allocated. */
  datatype State = State(
    next: map<nat, Option<nat>>,
    tail: nat,
    count: nat,
    threads: map<nat, Pc>,
    chain: seq<nat>,
    position: map<nat, nat>)

  datatype Choice =
    | CallAppend(thread: nat)
    | CallForEach(thread: nat)
    | Go(thread: nat, spurious: bool)

  const HEAD: nat := 0

  function Initial(): State {
    State(map[HEAD := None], HEAD, 1, map[], [HEAD], map[HEAD := 0])
  }

  function At(s: State, t: nat, pc: Pc): State {
    s.(threads := s.threads[t := pc])
  }

  function NextOf(s: State, node: nat): Option<nat> {
    if node in s.next then s.next[node] else None
  }

  function Step(s: State, t: nat, spurious: bool): State
    requires t in s.threads
  {
    match s.threads[t]
    case ResetNext(node) => At(s.(next := s.next[node := None]), t, LoadTail(node))
    case LoadTail(node) => At(s, t, LoadNext(node, s.tail))
    case LoadNext(node, tail) => At(s, t, Recheck(node, tail, NextOf(s, tail)))
    case Recheck(node, tail, next) =>
      if tail != s.tail then At(s, t, LoadTail(node))
      else (match next case None => At(s, t, Link(node, tail)) case Some(n) => At(s, t, Help(node, tail, n)))
    case Link(node, tail) =>
      if NextOf(s, tail) == None && !spurious then
        At(s.(next := s.next[tail := Some(node)],
              chain := s.chain + [node], position := s.position[node := |s.chain|]), t, Swing(node, tail))
      else At(s, t, LoadTail(node))
    case Swing(node, tail) =>
      s.(tail := if s.tail == tail then node else s.tail, threads := s.threads - {t})
    case Help(node, tail, next) =>
      At(s.(tail := if s.tail == tail && !spurious then next else s.tail), t, LoadTail(node))
    case Traverse(at, seen) =>
      (match NextOf(s, at) case None => At(s, t, Traversed(seen)) case Some(n) => At(s, t, Traverse(n, seen + [n])))
    case Traversed(_) => s.(threads := s.threads - {t})
  }

  function Apply(s: State, c: Choice): State {
    match c
    case CallAppend(t) =>
      if t in s.threads then s else At(s.(count := s.count + 1), t, ResetNext(s.count))
    case CallForEach(t) => if t in s.threads then s else At(s, t, Traverse(HEAD, []))
    case Go(t, spurious) => if t in s.threads then Step(s, t, spurious) else s
  }

  function RunFrom(s: State, schedule: seq<Choice>): State
    decreases |schedule|
  {
    if schedule == [] then s else RunFrom(Apply(s, schedule[0]), schedule[1..])
  }

  function Run(schedule: seq<Choice>): State {
    RunFrom(Initial(), schedule)
  }

  // ---------------------------------------------------------------------------
  // The invariant
  // ---------------------------------------------------------------------------

  /** Following the links from the head visits exactly `chain`, each node once, and then ends. */
  ghost predicate ChainOk(s: State) {
    && |s.chain| > 0 && s.chain[0] == HEAD
    && (forall k: nat :: k < |s.chain| ==> s.chain[k] in s.position && s.position[s.chain[k]] == k)
    && (forall x: nat :: x in s.position ==> s.position[x] < |s.chain| && s.chain[s.position[x]] == x)
    && (forall x: nat :: x in s.position ==> x < s.count)
    && (forall x: nat :: x >= s.count ==> NextOf(s, x) == None)
    && (forall k: nat :: k + 1 < |s.chain| ==> NextOf(s, s.chain[k]) == Some(s.chain[k + 1]))
    && NextOf(s, s.chain[|s.chain| - 1]) == None
  }

  /** The node has been reached by the tail pointer, now or earlier. */
  predicate Passed(s: State, x: nat) {
    x in s.position && s.tail in s.position && s.position[x] <= s.position[s.tail]
  }

  predicate Follows(s: State, x: nat, y: nat) {
    x in s.position && y in s.position && s.position[y] == s.position[x] + 1
  }

  predicate Unlinked(s: State, node: nat) {
    node < s.count && node !in s.position && NextOf(s, node) == None
  }

  predicate Appending(pc: Pc, node: nat) {
    !pc.Traverse? && !pc.Traversed? && !pc.Swing? && pc.node == node
  }

  predicate ThreadOk(s: State, pc: Pc) {
    match pc
    case ResetNext(node) => Unlinked(s, node)
    case LoadTail(node) => Unlinked(s, node)
    case LoadNext(node, tail) =>
      Unlinked(s, node) && Passed(s, tail)
    case Recheck(node, tail, next) =>
      && Unlinked(s, node) && Passed(s, tail)
      && (next.Some? ==> Follows(s, tail, next.value))
    case Link(node, tail) =>
      Unlinked(s, node) && Passed(s, tail)
    case Swing(node, tail) => Follows(s, tail, node) && Passed(s, tail)
    case Help(node, tail, next) =>
      && Unlinked(s, node) && Passed(s, tail)
      && Follows(s, tail, next)
    case Traverse(at, seen) =>
      at in s.position && s.position[at] < |s.chain| && seen == s.chain[1..s.position[at] + 1]
    case Traversed(seen) => [HEAD] + seen <= s.chain
  }

  /** Some append has linked its node and is about to move the tail pointer there. */
  ghost predicate Pending(s: State, node: nat) {
    exists t: nat :: t in s.threads && s.threads[t].Swing? && s.threads[t].node == node
  }

  ghost predicate Inv(s: State) {
    && ChainOk(s)
    && (forall t: nat :: t in s.threads ==> ThreadOk(s, s.threads[t]))
    && (forall t: nat, u: nat, node: nat :: t in s.threads && u in s.threads && t != u
          ==> !(Appending(s.threads[t], node) && Appending(s.threads[u], node)))
    && s.tail in s.position && s.position[s.tail] + 2 >= |s.chain|
    && (s.position[s.tail] + 1 < |s.chain| ==> Pending(s, s.chain[|s.chain| - 1]))
  }

  lemma InitialInv()
    ensures Inv(Initial())
  {
  }

  lemma PendingStays(s: State, s': State, t: nat, node: nat)
    requires Pending(s, node)
    requires !(t in s.threads && s.threads[t].Swing? && s.threads[t].node == node)
    requires s'.threads - {t} == s.threads - {t}
    ensures Pending(s', node)
  {
    var u: nat :| u in s.threads && s.threads[u].Swing? && s.threads[u].node == node;
    assert u in s.threads - {t};
    assert (s.threads - {t})[u] == (s'.threads - {t})[u];
  }

  /** A step that leaves the chain alone: it moves at most the tail pointer, forward. */
  lemma ChainUnchanged(s: State, s': State, t: nat)
    requires Inv(s) && s'.chain == s.chain && s'.position == s.position && s'.count >= s.count
    requires forall x: nat :: NextOf(s', x) == NextOf(s, x)
    requires s'.tail == s.tail || (s'.tail in s.position && s.position[s'.tail] == |s.chain| - 1)
    requires s'.threads - {t} == s.threads - {t}
    requires t in s'.threads ==> ThreadOk(s', s'.threads[t])
    requires forall node: nat :: t in s'.threads && Appending(s'.threads[t], node)
               ==> node >= s.count || (t in s.threads && Appending(s.threads[t], node))
    requires s'.tail == s.tail && t in s.threads && s.threads[t].Swing? ==> s.threads[t].tail != s.tail
    ensures Inv(s')
  {
    hide Pending;
    forall u: nat | u in s'.threads && u != t
      ensures u in s.threads && s'.threads[u] == s.threads[u] && ThreadOk(s', s'.threads[u])
    {
      assert u in s'.threads - {t};
      assert (s.threads - {t})[u] == (s'.threads - {t})[u];
      assert ThreadOk(s, s.threads[u]);
    }
    if s'.position[s'.tail] + 1 < |s'.chain| {
      if t in s.threads && s.threads[t].Swing? {
        assert ThreadOk(s, s.threads[t]);
      }
      PendingStays(s, s', t, s.chain[|s.chain| - 1]);
    }
    NodesApart(s, s', t);
  }

  lemma NodesApart(s: State, s': State, t: nat)
    requires forall u: nat, v: nat, node: nat :: u in s.threads && v in s.threads && u != v
               ==> !(Appending(s.threads[u], node) && Appending(s.threads[v], node))
    requires forall u: nat :: u in s.threads ==> ThreadOk(s, s.threads[u])
    requires forall u: nat :: u in s'.threads && u != t ==> u in s.threads && s'.threads[u] == s.threads[u]
    requires forall node: nat :: t in s'.threads && Appending(s'.threads[t], node)
               ==> node >= s.count || (t in s.threads && Appending(s.threads[t], node))
    ensures forall u: nat, v: nat, node: nat :: u in s'.threads && v in s'.threads && u != v
              ==> !(Appending(s'.threads[u], node) && Appending(s'.threads[v], node))
  {
    forall u: nat, v: nat, node: nat | u in s'.threads && v in s'.threads && u != v
      ensures !(Appending(s'.threads[u], node) && Appending(s'.threads[v], node))
    {
      assert u != t ==> ThreadOk(s, s.threads[u]);
      assert v != t ==> ThreadOk(s, s.threads[v]);
    }
  }

  /** The link compare-exchange succeeds only at the last node, and then the tail pointer is there. */
  lemma LinkExtends(s: State, t: nat)
    requires Inv(s) && t in s.threads && s.threads[t].Link? && NextOf(s, s.threads[t].tail) == None
    ensures Inv(Step(s, t, false))
    ensures Step(s, t, false).chain == s.chain + [s.threads[t].node]
  {
    var s' := Step(s, t, false);
    var node, tail := s.threads[t].node, s.threads[t].tail;
    assert ThreadOk(s, s.threads[t]);
    LastHasNoNext(s, tail);
    ChainExtends(s, t);
    forall u: nat | u in s'.threads ensures ThreadOk(s', s'.threads[u]) {
      if u != t {
        OthersAfterLink(s, t, u);
      }
    }
    assert s'.threads[t].Swing? && s'.threads[t].node == node;
    hide ChainOk, ThreadOk;
    NodesApart(s, s', t);
  }

  lemma LastHasNoNext(s: State, x: nat)
    requires ChainOk(s) && x in s.position && NextOf(s, x) == None
    ensures s.position[x] == |s.chain| - 1
  {
    NextFollows(s, x);
  }

  lemma ChainExtends(s: State, t: nat)
    requires Inv(s) && t in s.threads && s.threads[t].Link? && NextOf(s, s.threads[t].tail) == None
    requires s.position[s.threads[t].tail] == |s.chain| - 1
    ensures ChainOk(Step(s, t, false))
  {
    hide Pending;
    var s', tail, node := Step(s, t, false), s.threads[t].tail, s.threads[t].node;
    assert ThreadOk(s, s.threads[t]);
    var last := |s.chain| - 1;
    assert tail < s.count && s'.chain[last] == tail && s'.chain[last + 1] == node;
    OneLink(s, s', tail, node);
    hide Step, NextOf;
    forall k: nat | k + 1 < |s'.chain| ensures NextOf(s', s'.chain[k]) == Some(s'.chain[k + 1]) {
      if k < last {
        assert s'.chain[k] == s.chain[k] && NextOf(s, s.chain[k]) == Some(s.chain[k + 1]);
      }
    }
    forall x: nat | x >= s'.count ensures NextOf(s', x) == None {
      assert NextOf(s, x) == None;
    }
  }

  lemma OneLink(s: State, s': State, tail: nat, node: nat)
    requires s'.next == s.next[tail := Some(node)]
    ensures forall x: nat :: NextOf(s', x) == if x == tail then Some(node) else NextOf(s, x)
  {
  }

  lemma PassedIsShort(s: State)
    requires ChainOk(s)
    ensures forall x: nat :: x in s.position ==> s.position[x] < |s.chain|
  {
  }

  lemma OthersAfterLink(s: State, t: nat, u: nat)
    requires Inv(s) && t in s.threads && s.threads[t].Link? && NextOf(s, s.threads[t].tail) == None
    requires u in s.threads && u != t
    ensures ThreadOk(Step(s, t, false), s.threads[u])
  {
    var s', node := Step(s, t, false), s.threads[t].node;
    var pc := s.threads[u];
    assert ThreadOk(s, s.threads[t]) && ThreadOk(s, pc);
    assert Appending(s.threads[t], node);
    FactsAfterLink(s, t);
    PassedIsShort(s);
    hide ChainOk, Pending, NextOf, Unlinked, Passed, Follows, Step;
    if !pc.Traverse? && !pc.Traversed? && !pc.Swing? {
      assert Appending(pc, pc.node);
    }
  }

  lemma FactsAfterLink(s: State, t: nat)
    requires ChainOk(s) && t in s.threads && s.threads[t].Link? && NextOf(s, s.threads[t].tail) == None
    requires ThreadOk(s, s.threads[t])
    ensures var s', node := Step(s, t, false), s.threads[t].node;
            && (forall x: nat :: Unlinked(s, x) && x != node ==> Unlinked(s', x))
            && (forall x: nat :: Passed(s, x) ==> Passed(s', x))
            && (forall x: nat, y: nat :: Follows(s, x, y) ==> Follows(s', x, y))
            && (forall x: nat :: x in s.position ==> x in s'.position && s'.position[x] == s.position[x])
            && s'.chain == s.chain + [node]
  {
    hide ChainOk;
    OneLink(s, Step(s, t, false), s.threads[t].tail, s.threads[t].node);
  }

  lemma StepKeepsInv(s: State, t: nat, spurious: bool)
    requires Inv(s) && t in s.threads
    ensures Inv(Step(s, t, spurious))
    ensures s.chain <= Step(s, t, spurious).chain
  {
    hide ChainOk, Pending, NextOf, ThreadOk;
    match s.threads[t]
    case Link(_, tail) =>
      if NextOf(s, tail) == None && !spurious { LinkExtends(s, t); } else { LoadKeepsInv(s, t, spurious); }
    case Swing(_, _) => MoveKeepsInv(s, t, spurious);
    case Help(_, _, _) => MoveKeepsInv(s, t, spurious);
    case Traverse(_, _) => TraverseKeepsInv(s, t, spurious);
    case Traversed(_) => TraverseKeepsInv(s, t, spurious);
    case _ => LoadKeepsInv(s, t, spurious);
  }

  predicate Loading(s: State, pc: Pc, spurious: bool) {
    || pc.ResetNext? || pc.LoadTail? || pc.LoadNext? || pc.Recheck?
    || (pc.Link? && (spurious || NextOf(s, pc.tail) != None))
  }

  lemma LoadKeepsInv(s: State, t: nat, spurious: bool)
    requires Inv(s) && t in s.threads && Loading(s, s.threads[t], spurious)
    ensures Inv(Step(s, t, spurious)) && Step(s, t, spurious).chain == s.chain
  {
    hide Pending;
    assert ThreadOk(s, s.threads[t]);
    if s.threads[t].LoadNext? {
      NextFollows(s, s.threads[t].tail);
    }
    hide ChainOk;
    ChainUnchanged(s, Step(s, t, spurious), t);
  }

  lemma MoveKeepsInv(s: State, t: nat, spurious: bool)
    requires Inv(s) && t in s.threads && (s.threads[t].Swing? || s.threads[t].Help?)
    ensures Inv(Step(s, t, spurious)) && Step(s, t, spurious).chain == s.chain
  {
    hide Pending;
    assert ThreadOk(s, s.threads[t]);
    ChainUnchanged(s, Step(s, t, spurious), t);
  }

  lemma TraverseKeepsInv(s: State, t: nat, spurious: bool)
    requires Inv(s) && t in s.threads && (s.threads[t].Traverse? || s.threads[t].Traversed?)
    ensures Inv(Step(s, t, spurious)) && Step(s, t, spurious).chain == s.chain
  {
    assert ThreadOk(s, s.threads[t]);
    if s.threads[t].Traverse? {
      TraverseOn(s, t, spurious);
    }
    hide Pending, ThreadOk;
    ChainUnchanged(s, Step(s, t, spurious), t);
  }

  lemma TraverseOn(s: State, t: nat, spurious: bool)
    requires ChainOk(s) && t in s.threads && s.threads[t].Traverse? && ThreadOk(s, s.threads[t])
    ensures var s' := Step(s, t, spurious); t in s'.threads && ThreadOk(s', s'.threads[t])
  {
    NextFollows(s, s.threads[t].at);
    hide ChainOk;
    var at, seen := s.threads[t].at, s.threads[t].seen;
    var k := s.position[at];
    match NextOf(s, at)
    case None => WholeChain(s);
    case Some(n) =>
      assert s.chain[1..k + 2] == s.chain[1..k + 1] + [s.chain[k + 1]];
      NodeAt(s, n);
  }

  lemma WholeChain(s: State)
    requires ChainOk(s)
    ensures [HEAD] + s.chain[1..|s.chain|] == s.chain
  {
  }

  lemma NodeAt(s: State, x: nat)
    requires ChainOk(s) && x in s.position
    ensures s.position[x] < |s.chain| && s.chain[s.position[x]] == x
  {
  }

  lemma NextFollows(s: State, x: nat)
    requires ChainOk(s) && x in s.position
    ensures NextOf(s, x).Some? <==> s.position[x] + 1 < |s.chain|
    ensures NextOf(s, x).Some? ==> Follows(s, x, NextOf(s, x).value)
  {
    var k := s.position[x];
    assert k + 1 < |s.chain| ==> NextOf(s, s.chain[k]) == Some(s.chain[k + 1]);
  }

  lemma ApplyKeepsInv(s: State, c: Choice)
    requires Inv(s)
    ensures Inv(Apply(s, c)) && s.chain <= Apply(s, c).chain
  {
    match c
    case Go(t, spurious) => if t in s.threads { StepKeepsInv(s, t, spurious); }
    case _ => if c.thread !in s.threads { hide Pending; ChainUnchanged(s, Apply(s, c), c.thread); }
  }

  lemma {:induction false} RunKeepsInv(s: State, schedule: seq<Choice>)
    requires Inv(s)
    ensures Inv(RunFrom(s, schedule)) && s.chain <= RunFrom(s, schedule).chain
    decreases |schedule|
  {
    hide Inv, Apply;
    if schedule != [] {
      ApplyKeepsInv(s, schedule[0]);
      RunKeepsInv(Apply(s, schedule[0]), schedule[1..]);
    }
  }

  // ---------------------------------------------------------------------------
  // Main results
  // ---------------------------------------------------------------------------

  /** After any schedule the links from the head visit every linked node exactly once and end;
      the tail pointer is at the last or the last but one of them, and at the last whenever no
      append stands between linking its node and moving the pointer. */
  lemma EveryRunKeepsTheChain(schedule: seq<Choice>)
    ensures var s := Run(schedule);
            && ChainOk(s)
            && s.tail in s.position && s.position[s.tail] + 2 >= |s.chain|
            && ((forall t: nat :: t in s.threads ==> !s.threads[t].Swing?) ==> s.tail == s.chain[|s.chain| - 1])
  {
    InitialInv();
    RunKeepsInv(Initial(), schedule);
  }

  /** The chain only ever grows at its end. */
  lemma ChainOnlyGrows(before: seq<Choice>, after: seq<Choice>)
    ensures Run(before).chain <= Run(before + after).chain
  {
    InitialInv();
    RunKeepsInv(Initial(), before);
    RunKeepsInv(Run(before), after);
    RunConcat(Initial(), before, after);
  }

  lemma {:induction false} RunConcat(s: State, a: seq<Choice>, b: seq<Choice>)
    ensures RunFrom(s, a + b) == RunFrom(RunFrom(s, a), b)
    decreases |a|
  {
    hide Apply;
    if a == [] {
      assert a + b == b;
    } else {
      assert (a + b)[1..] == a[1..] + b;
      RunConcat(Apply(s, a[0]), a[1..], b);
    }
  }

  /** When an append returns, its node is in the chain. */
  lemma ReturnedAppendIsLinked(schedule: seq<Choice>, t: nat, spurious: bool)
    requires var s := Run(schedule); t in s.threads && s.threads[t].Swing?
    ensures var s := Run(schedule);
            t !in Step(s, t, spurious).threads && s.threads[t].node in s.chain
  {
    InitialInv();
    RunKeepsInv(Initial(), schedule);
    var s := Run(schedule);
    assert ThreadOk(s, s.threads[t]);
    assert s.chain[s.position[s.threads[t].node]] == s.threads[t].node;
  }

  /** A finished traversal has seen a prefix of the chain in order, each node once. */
  lemma TraversalSeesPrefix(schedule: seq<Choice>, t: nat)
    requires var s := Run(schedule); t in s.threads && s.threads[t].Traversed?
    ensures var s := Run(schedule); [HEAD] + s.threads[t].seen <= s.chain
  {
    InitialInv();
    RunKeepsInv(Initial(), schedule);
    assert ThreadOk(Run(schedule), Run(schedule).threads[t]);
  }

  /** At the moment it finds the end, a traversal has seen the whole chain, so in particular
      every node linked before it began. */
  lemma TraversalSeesAll(schedule: seq<Choice>, t: nat)
    requires var s := Run(schedule); t in s.threads && s.threads[t].Traverse? && NextOf(s, s.threads[t].at) == None
    ensures var s := Run(schedule); [HEAD] + s.threads[t].seen == s.chain
  {
    InitialInv();
    RunKeepsInv(Initial(), schedule);
    var s := Run(schedule);
    assert ThreadOk(s, s.threads[t]);
    LastHasNoNext(s, s.threads[t].at);
    assert s.chain == [HEAD] + s.chain[1..];
  }

  // ---------------------------------------------------------------------------
  // Calls that are not disturbed any more
  // ---------------------------------------------------------------------------

  /** An append ends only after its node is linked, a traversal only at the end of the chain:
      losing a race keeps a thread in its call. */
  lemma CallsEndExactly(s: State, t: nat, spurious: bool)
    requires t in s.threads
    ensures t !in Step(s, t, spurious).threads <==> s.threads[t].Swing? || s.threads[t].Traversed?
  {
  }

  function Turns(s: State, t: nat, n: nat): State
    decreases n
  {
    if n == 0 then s else Turns(Apply(s, Go(t, false)), t, n - 1)
  }

  /** The longest way from inside an append to its end. */
  const ENOUGH: nat := 12

  lemma {:induction false} NoTurnsLeft(s: State, t: nat, n: nat)
    requires t !in s.threads
    ensures Turns(s, t, n) == s
    decreases n
  {
    if n > 0 {
      NoTurnsLeft(s, t, n - 1);
    }
  }

  lemma OneTurn(s: State, t: nat, n: nat)
    requires n > 0
    ensures Turns(s, t, n) == Turns(Apply(s, Go(t, false)), t, n - 1)
  {
  }

  lemma AtAgain(s: State, t: nat, pc: Pc, pc': Pc)
    ensures At(At(s, t, pc), t, pc') == At(s, t, pc') && At(s, t, pc).threads - {t} == s.threads - {t}
    ensures t in s.threads ==> At(s, t, s.threads[t]) == s
  {
    assert s.threads[t := pc][t := pc'] == s.threads[t := pc'];
    assert s.threads[t := pc] - {t} == s.threads - {t};
    assert t in s.threads ==> s.threads[t := s.threads[t]] == s.threads;
  }

  /** The node stands at the end of the chain, the tail pointer is there, and nothing else changed. */
  ghost predicate Appended(s: State, s': State, t: nat, node: nat) {
    && s'.chain == s.chain + [node] && s'.tail == node && s'.threads == s.threads - {t} && s'.count == s.count
    && |s.chain| > 0 && s'.next == s.next[s.chain[|s.chain| - 1] := Some(node)]
  }

  /** Five turns with the tail pointer at the last node. */
  lemma AppendCaughtUp(s: State, t: nat, node: nat, n: nat)
    requires ChainOk(s) && s.tail == s.chain[|s.chain| - 1] && n >= 5
    ensures Appended(s, Turns(At(s, t, LoadTail(node)), t, n), t, node)
    ensures Appended(s, Turns(At(s, t, Link(node, s.tail)), t, n - 3), t, node)
  {
    hide Turns, ChainOk;
    var tail := s.tail;
    assert NextOf(s, tail) == None && |s.chain| > 0 by { EndOfChain(s); }
    var s0, s1 := At(s, t, LoadTail(node)), At(s, t, LoadNext(node, tail));
    var s2, s3 := At(s, t, Recheck(node, tail, None)), At(s, t, Link(node, tail));
    AtAgain(s, t, LoadTail(node), LoadNext(node, tail));
    AtAgain(s, t, LoadNext(node, tail), Recheck(node, tail, None));
    AtAgain(s, t, Recheck(node, tail, None), Link(node, tail));
    var linked := s.(next := s.next[tail := Some(node)], chain := s.chain + [node],
                     position := s.position[node := |s.chain|]);
    AtAgain(linked, t, Link(node, tail), Swing(node, tail));
    OneTurn(s0, t, n);
    assert Apply(s0, Go(t, false)) == s1;
    OneTurn(s1, t, n - 1);
    assert Apply(s1, Go(t, false)) == s2;
    OneTurn(s2, t, n - 2);
    assert Apply(s2, Go(t, false)) == s3;
    OneTurn(s3, t, n - 3);
    var s4 := At(linked, t, Swing(node, tail));
    assert Apply(s3, Go(t, false)) == s4;
    OneTurn(s4, t, n - 4);
    NoTurnsLeft(Apply(s4, Go(t, false)), t, n - 5);
  }

  lemma EndOfChain(s: State)
    requires ChainOk(s)
    ensures |s.chain| > 0 && NextOf(s, s.chain[|s.chain| - 1]) == None
  {
  }

  ghost predicate NearlyThere(s: State) {
    ChainOk(s) && s.tail in s.position && s.position[s.tail] + 2 >= |s.chain|
  }

  lemma SameChain(s: State, s': State)
    requires ChainOk(s) && s'.chain == s.chain && s'.position == s.position && s'.count == s.count
    requires forall x: nat :: NextOf(s', x) == NextOf(s, x)
    ensures ChainOk(s')
  {
  }

  /** Nine turns wherever the tail pointer is: helped on first, if it lags behind. */
  lemma AppendFromLoad(s: State, t: nat, node: nat, n: nat)
    requires NearlyThere(s) && n >= 9
    ensures Appended(s, Turns(At(s, t, LoadTail(node)), t, n), t, node)
  {
    hide Turns;
    var tail := s.tail;
    if s.position[tail] + 1 == |s.chain| {
      AppendCaughtUp(s, t, node, n);
    } else {
      NextFollows(s, tail);
      var next := s.chain[|s.chain| - 1];
      assert NextOf(s, tail) == Some(next);
      hide ChainOk;
      var s0, s1 := At(s, t, LoadTail(node)), At(s, t, LoadNext(node, tail));
      var s2, s3 := At(s, t, Recheck(node, tail, Some(next))), At(s, t, Help(node, tail, next));
      AtAgain(s, t, LoadTail(node), LoadNext(node, tail));
      AtAgain(s, t, LoadNext(node, tail), Recheck(node, tail, Some(next)));
      AtAgain(s, t, Recheck(node, tail, Some(next)), Help(node, tail, next));
      OneTurn(s0, t, n);
      assert Apply(s0, Go(t, false)) == s1;
      OneTurn(s1, t, n - 1);
      assert Apply(s1, Go(t, false)) == s2;
      OneTurn(s2, t, n - 2);
      assert Apply(s2, Go(t, false)) == s3;
      OneTurn(s3, t, n - 3);
      AppendFromHelp(s, t, node, tail, next, n - 3);
    }
  }

  lemma AppendFromHelp(s: State, t: nat, node: nat, tail: nat, next: nat, n: nat)
    requires NearlyThere(s) && s.tail == tail && next == s.chain[|s.chain| - 1] && n >= 6
    ensures Appended(s, Turns(At(s, t, Help(node, tail, next)), t, n), t, node)
  {
    hide Turns;
    hide ChainOk;
    var moved := s.(tail := next);
    SameChain(s, moved);
    AtAgain(moved, t, Help(node, tail, next), LoadTail(node));
    OneTurn(At(s, t, Help(node, tail, next)), t, n);
    assert Apply(At(s, t, Help(node, tail, next)), Go(t, false)) == At(moved, t, LoadTail(node));
    AppendCaughtUp(moved, t, node, n - 1);
  }

  /** From the middle of any append, wherever races have left it, the thread alone returns with its
      node at the end of the chain; one that has linked its node only moves the tail pointer, unless
      somebody did. */
  lemma AppendReturns(s: State, t: nat)
    requires Inv(s) && t in s.threads && !s.threads[t].Traverse? && !s.threads[t].Traversed?
    ensures var pc, s' := s.threads[t], Turns(s, t, ENOUGH);
            if pc.Swing?
            then s' == s.(tail := if s.tail == pc.tail then pc.node else s.tail, threads := s.threads - {t})
            else if pc.ResetNext? then Appended(s.(next := s.next[pc.node := None]), s', t, pc.node)
            else Appended(s, s', t, pc.node)
  {
    hide Turns, Pending;
    var pc := s.threads[t];
    assert ThreadOk(s, pc) && NearlyThere(s);
    AtAgain(s, t, pc, pc);
    match pc
    case ResetNext(node) => AppendFromReset(s, t, node, ENOUGH);
    case LoadTail(node) => AppendFromLoad(s, t, node, ENOUGH);
    case LoadNext(node, tail) =>
      OneTurn(s, t, ENOUGH);
      AtAgain(s, t, pc, Recheck(node, tail, NextOf(s, tail)));
      NextFollows(s, tail);
      AppendFromRecheck(s, t, node, tail, NextOf(s, tail), ENOUGH - 1);
    case Recheck(node, tail, next) => AppendFromRecheck(s, t, node, tail, next, ENOUGH);
    case Link(node, tail) => AppendFromLink(s, t, node, tail, ENOUGH);
    case Swing(node, tail) =>
      OneTurn(s, t, ENOUGH);
      NoTurnsLeft(Apply(s, Go(t, false)), t, ENOUGH - 1);
    case Help(node, tail, next) => HelpReturns(s, t, node, tail, next, ENOUGH);
  }

  lemma AppendFromReset(s: State, t: nat, node: nat, n: nat)
    requires NearlyThere(s) && Unlinked(s, node) && n >= 10
    ensures Appended(s.(next := s.next[node := None]), Turns(At(s, t, ResetNext(node)), t, n), t, node)
  {
    hide Turns, ChainOk;
    var reset := s.(next := s.next[node := None]);
    SameChain(s, reset);
    AtAgain(reset, t, ResetNext(node), LoadTail(node));
    OneTurn(At(s, t, ResetNext(node)), t, n);
    assert Apply(At(s, t, ResetNext(node)), Go(t, false)) == At(reset, t, LoadTail(node));
    AppendFromLoad(reset, t, node, n - 1);
  }

  lemma AppendFromLink(s: State, t: nat, node: nat, tail: nat, n: nat)
    requires NearlyThere(s) && Passed(s, tail) && n >= 10
    ensures Appended(s, Turns(At(s, t, Link(node, tail)), t, n), t, node)
  {
    hide Turns;
    if NextOf(s, tail) == None {
      LastHasNoNext(s, tail);
      assert s.tail == s.chain[|s.chain| - 1] == tail;
      AppendCaughtUp(s, t, node, n + 3);
    } else {
      hide ChainOk;
      AtAgain(s, t, Link(node, tail), LoadTail(node));
      OneTurn(At(s, t, Link(node, tail)), t, n);
      AppendFromLoad(s, t, node, n - 1);
    }
  }

  lemma HelpReturns(s: State, t: nat, node: nat, tail: nat, next: nat, n: nat)
    requires NearlyThere(s) && Passed(s, tail) && Follows(s, tail, next) && n >= 10
    ensures Appended(s, Turns(At(s, t, Help(node, tail, next)), t, n), t, node)
  {
    hide Turns;
    if s.tail == tail {
      NodeAt(s, next);
      AppendFromHelp(s, t, node, tail, next, n);
    } else {
      hide ChainOk;
      AtAgain(s, t, Help(node, tail, next), LoadTail(node));
      OneTurn(At(s, t, Help(node, tail, next)), t, n);
      AppendFromLoad(s, t, node, n - 1);
    }
  }

  lemma AppendFromRecheck(s: State, t: nat, node: nat, tail: nat, next: Option<nat>, n: nat)
    requires NearlyThere(s) && Passed(s, tail) && (next.Some? ==> Follows(s, tail, next.value)) && n >= 11
    ensures Appended(s, Turns(At(s, t, Recheck(node, tail, next)), t, n), t, node)
  {
    hide Turns, ChainOk;
    var here := At(s, t, Recheck(node, tail, next));
    OneTurn(here, t, n);
    if tail != s.tail {
      AtAgain(s, t, Recheck(node, tail, next), LoadTail(node));
      AppendFromLoad(s, t, node, n - 1);
    } else if next == None {
      AtAgain(s, t, Recheck(node, tail, next), Link(node, tail));
      AppendFromLink(s, t, node, tail, n - 1);
    } else {
      AtAgain(s, t, Recheck(node, tail, next), Help(node, tail, next.value));
      HelpReturns(s, t, node, tail, next.value, n - 1);
    }
  }

  /** A traversal alone comes to the end of the chain, having called every node once, in order. */
  lemma {:induction false} TraversalReturns(s: State, t: nat)
    requires Inv(s) && t in s.threads && s.threads[t].Traverse?
    ensures s.threads[t].at in s.position && s.position[s.threads[t].at] < |s.chain|
    ensures Turns(s, t, |s.chain| - s.position[s.threads[t].at]) == At(s, t, Traversed(s.chain[1..]))
    decreases |s.chain| - s.position[s.threads[t].at]
  {
    hide Turns, Pending;
    var at, seen := s.threads[t].at, s.threads[t].seen;
    assert ThreadOk(s, s.threads[t]);
    NodeAt(s, at);
    NextFollows(s, at);
    var n := |s.chain| - s.position[at];
    OneTurn(s, t, n);
    if NextOf(s, at) == None {
      assert Apply(s, Go(t, false)) == At(s, t, Traversed(seen)) && seen == s.chain[1..] && n == 1;
      NoTurns(At(s, t, Traversed(seen)), t);
    } else {
      var next := NextOf(s, at).value;
      StepKeepsInv(s, t, false);
      hide Inv;
      AtAgain(s, t, Traverse(next, seen + [next]), Traversed(s.chain[1..]));
      TraversalReturns(Apply(s, Go(t, false)), t);
    }
  }

  lemma NoTurns(s: State, t: nat)
    ensures Turns(s, t, 0) == s
  {
  }
}
