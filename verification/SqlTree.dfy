/**
 The part of a parsed SQL tree that the guard (app/sql_agent/validation/sql_guard.py)
 looks at, and the breadth-first walk in which it finds nodes. A node kind the
 guard does not ask for is an `Other` with its parts.
 */
module SqlTree {
  import opened Wrappers

  datatype Node =
    | Select(projections: seq<Node>, clauses: seq<Node>, limit: Option<Node>)
    | With(ctes: seq<Node>)
    | Cte(alias: string, body: Node)
    | Subquery(alias: string, body: Node, parts: seq<Node>)
    | Table(name: string, db: string, alias: string, parts: seq<Node>)
    | Column(name: string, table: string, db: string, star: bool)
    | Aliased(alias: string, body: Node)
    | Func(sqlName: string, text: string, parts: seq<Node>)
    | Anonymous(name: string, parts: seq<Node>)
    | Write(kind: string, parts: seq<Node>)
    | LimitNode(count: Node)
    | IntLiteral(value: int)
    | Other(tag: string, text: string, parts: seq<Node>)

  function Children(n: Node): seq<Node> {
    match n
    case Select(projections, clauses, limit) =>
      projections + clauses + (if limit.Some? then [limit.value] else [])
    case With(ctes) => ctes
    case Cte(_, body) => [body]
    case Subquery(_, body, parts) => [body] + parts
    case Table(_, _, _, parts) => parts
    case Column(_, _, _, _) => []
    case Aliased(_, body) => [body]
    case Func(_, _, parts) => parts
    case Anonymous(_, parts) => parts
    case Write(_, parts) => parts
    case LimitNode(count) => [count]
    case IntLiteral(_) => []
    case Other(_, _, parts) => parts
  }

  function Size(n: Node): (size: nat)
    ensures size > 0
    decreases n
  {
    match n
    case Select(projections, clauses, limit) =>
      1 + SizeAll(projections) + SizeAll(clauses) + (if limit.Some? then Size(limit.value) else 0)
    case With(ctes) => 1 + SizeAll(ctes)
    case Cte(_, body) => 1 + Size(body)
    case Subquery(_, body, parts) => 1 + Size(body) + SizeAll(parts)
    case Table(_, _, _, parts) => 1 + SizeAll(parts)
    case Column(_, _, _, _) => 1
    case Aliased(_, body) => 1 + Size(body)
    case Func(_, _, parts) => 1 + SizeAll(parts)
    case Anonymous(_, parts) => 1 + SizeAll(parts)
    case Write(_, parts) => 1 + SizeAll(parts)
    case LimitNode(count) => 1 + Size(count)
    case IntLiteral(_) => 1
    case Other(_, _, parts) => 1 + SizeAll(parts)
  }

  function SizeAll(ns: seq<Node>): nat
    decreases ns
  {
    if ns == [] then 0 else Size(ns[0]) + SizeAll(ns[1..])
  }

  lemma {:induction false} SizeAllConcat(xs: seq<Node>, ys: seq<Node>)
    ensures SizeAll(xs + ys) == SizeAll(xs) + SizeAll(ys)
  {
    if xs == [] {
      assert xs + ys == ys;
    } else {
      assert (xs + ys)[1..] == xs[1..] + ys;
      SizeAllConcat(xs[1..], ys);
    }
  }

  lemma SizeOfChildren(n: Node)
    ensures Size(n) == 1 + SizeAll(Children(n))
  {
    match n
    case Select(projections, clauses, limit) =>
      var last := if limit.Some? then [limit.value] else [];
      SizeAllConcat(projections, clauses);
      SizeAllConcat(projections + clauses, last);
      if limit.Some? { assert last[1..] == []; }
    case Subquery(_, body, parts) =>
      SizeAllConcat([body], parts);
      assert [body][1..] == [];
    case Cte(_, body) => assert [body][1..] == [];
    case Aliased(_, body) => assert [body][1..] == [];
    case LimitNode(count) => assert [count][1..] == [];
    case _ =>
  }

  lemma SizeOfNext(queue: seq<Node>)
    requires queue != []
    ensures SizeAll(queue[1..] + Children(queue[0])) == SizeAll(queue) - 1
  {
    SizeOfChildren(queue[0]);
    SizeAllConcat(queue[1..], Children(queue[0]));
  }

  /** Breadth-first order: the next node is taken from the front of the queue and
      its children go to the back. */
  function Walk(queue: seq<Node>): seq<Node>
    decreases SizeAll(queue)
  {
    if queue == [] then []
    else
      SizeOfNext(queue);
      [queue[0]] + Walk(queue[1..] + Children(queue[0]))
  }

  function Filter(ns: seq<Node>, p: Node -> bool): (r: seq<Node>)
    ensures forall n :: n in r <==> n in ns && p(n)
  {
    if ns == [] then [] else (if p(ns[0]) then [ns[0]] else []) + Filter(ns[1..], p)
  }

  lemma {:induction false} FilterConcat(xs: seq<Node>, ys: seq<Node>, p: Node -> bool)
    ensures Filter(xs + ys, p) == Filter(xs, p) + Filter(ys, p)
  {
    if xs == [] {
      assert xs + ys == ys;
    } else {
      assert (xs + ys)[1..] == xs[1..] + ys;
      FilterConcat(xs[1..], ys, p);
    }
  }

  /** All nodes of a kind, in the order in which the walk meets them. */
  function FindAll(root: Node, p: Node -> bool): (found: seq<Node>)
    ensures forall n :: n in found ==> p(n)
    ensures forall i :: 0 <= i < |found| ==> p(found[i])
  {
    Filter(Walk([root]), p)
  }

  // ----------------------------------------------- the walk meets every node once

  lemma {:induction false} MemberSize(n: Node, ns: seq<Node>)
    requires n in ns
    ensures Size(n) <= SizeAll(ns)
  {
    if n != ns[0] { MemberSize(n, ns[1..]); }
  }

  lemma ChildSmaller(c: Node, n: Node)
    requires c in Children(n)
    ensures Size(c) < Size(n)
  {
    SizeOfChildren(n);
    MemberSize(c, Children(n));
  }

  /** `x` is the root or lies somewhere below it. */
  ghost predicate Within(x: Node, root: Node)
    decreases Size(root)
  {
    x == root || exists c :: c in Children(root) && (ChildSmaller(c, root); Within(x, c))
  }

  lemma {:induction false} WalkMeetsAll(x: Node, queue: seq<Node>)
    ensures x in Walk(queue) <==> exists q :: q in queue && Within(x, q)
    decreases SizeAll(queue)
  {
    if queue != [] {
      var next := queue[1..] + Children(queue[0]);
      SizeOfNext(queue);
      WalkMeetsAll(x, next);
      assert forall q :: q in next <==> q in queue[1..] || q in Children(queue[0]);
      assert forall q :: q in queue <==> q == queue[0] || q in queue[1..];
      assert Within(x, queue[0]) <==> x == queue[0] || exists c :: c in Children(queue[0]) && Within(x, c);
    }
  }

  lemma FindsExactly(x: Node, root: Node, p: Node -> bool)
    ensures x in FindAll(root, p) <==> Within(x, root) && p(x)
  {
    WalkMeetsAll(x, [root]);
  }

  // ------------------------------------------ a limit does not change what is found

  /** A LIMIT with a literal count, and that literal: what `_enforce_limit` puts
      into the tree and replaces there. */
  predicate Inert(n: Node) {
    n.IntLiteral? || (n.LimitNode? && n.count.IntLiteral?)
  }

  predicate Lives(n: Node) {
    !Inert(n)
  }

  ghost predicate Ignores(p: Node -> bool) {
    forall n :: Inert(n) ==> !p(n)
  }

  function Live(queue: seq<Node>): seq<Node> {
    Filter(queue, Lives)
  }

  lemma LiveNext(queue: seq<Node>)
    requires queue != []
    ensures Live(queue) == (if Inert(queue[0]) then [] else [queue[0]]) + Live(queue[1..])
    ensures Live(queue[1..] + Children(queue[0])) == Live(queue[1..]) + Live(Children(queue[0]))
  {
    FilterConcat(queue[1..], Children(queue[0]), Lives);
  }

  lemma FoundNext(queue: seq<Node>, p: Node -> bool)
    requires queue != []
    ensures Filter(Walk(queue), p) ==
            (if p(queue[0]) then [queue[0]] else []) + Filter(Walk(queue[1..] + Children(queue[0])), p)
  {
    var next := queue[1..] + Children(queue[0]);
    assert Walk(queue) == [queue[0]] + Walk(next);
    assert Walk(queue)[1..] == Walk(next);
  }

  lemma BelowInert(n: Node)
    requires Inert(n)
    ensures Live(Children(n)) == []
  {
    if n.LimitNode? {
      var below := Children(n);
      assert below == [n.count] && below[1..] == [] && !Lives(below[0]);
      assert Filter(below, Lives) == Filter(below[1..], Lives);
    }
  }

  /** An inert head is left out with all that is below it. */
  lemma InertHead(queue: seq<Node>, p: Node -> bool)
    requires queue != [] && Inert(queue[0]) && Ignores(p)
    ensures Live(queue[1..] + Children(queue[0])) == Live(queue)
    ensures Filter(Walk(queue), p) == Filter(Walk(queue[1..] + Children(queue[0])), p)
  {
    LiveNext(queue);
    BelowInert(queue[0]);
    FoundNext(queue, p);
    assert !p(queue[0]);
  }

  /** After a live head the two searches go on with queues that differ in limits only. */
  lemma LiveHead(queue: seq<Node>, p: Node -> bool)
    requires queue != [] && !Inert(queue[0])
    ensures var live, below := Live(queue), Children(queue[0]);
            && live == [queue[0]] + Live(queue[1..])
            && Live(live[1..] + below) == Live(queue[1..] + below)
            && SizeAll(live[1..] + below) < SizeAll(queue)
            && Filter(Walk(live), p) == (if p(queue[0]) then [queue[0]] else []) + Filter(Walk(live[1..] + below), p)
  {
    var live, below := Live(queue), Children(queue[0]);
    LiveNext(queue);
    assert live[0] == queue[0] && live[1..] == Live(queue[1..]);
    FilterConcat(live[1..], below, Lives);
    LiveTwice(queue[1..]);
    SizeOfNext(queue);
    LiveSmaller(queue[1..]);
    SizeAllConcat(queue[1..], below);
    SizeAllConcat(live[1..], below);
    FoundNext(live, p);
  }

  /** Limits in the queue can be left out of a search that ignores them. */
  lemma {:induction false} WalkSkipsInert(queue: seq<Node>, p: Node -> bool)
    requires Ignores(p)
    ensures Filter(Walk(queue), p) == Filter(Walk(Live(queue)), p)
    decreases SizeAll(queue)
  {
    if queue != [] {
      var next := queue[1..] + Children(queue[0]);
      SizeOfNext(queue);
      WalkSkipsInert(next, p);
      if Inert(queue[0]) {
        InertHead(queue, p);
      } else {
        var liveNext := Live(queue)[1..] + Children(queue[0]);
        LiveHead(queue, p);
        WalkSkipsInert(liveNext, p);
        FoundNext(queue, p);
      }
    }
  }

  lemma {:induction false} LiveSmaller(queue: seq<Node>)
    ensures SizeAll(Live(queue)) <= SizeAll(queue)
  {
    if queue != [] {
      LiveSmaller(queue[1..]);
      SizeAllConcat(if Inert(queue[0]) then [] else [queue[0]], Live(queue[1..]));
    }
  }

  lemma {:induction false} LiveTwice(queue: seq<Node>)
    ensures Live(Live(queue)) == Live(queue)
  {
    if queue != [] {
      LiveTwice(queue[1..]);
      FilterConcat(if Inert(queue[0]) then [] else [queue[0]], Live(queue[1..]), Lives);
    }
  }

  /** The root of a query whose limit is missing or literal, without that limit. */
  predicate PlainLimit(n: Node) {
    n.Select? && (n.limit.Some? ==> n.limit.value.LimitNode? && n.limit.value.count.IntLiteral?)
  }

  function Unlimited(n: Node): Node
    requires n.Select?
  {
    n.(limit := None)
  }

  lemma LiveChildren(n: Node)
    requires PlainLimit(n)
    ensures Live(Children(n)) == Live(Children(Unlimited(n)))
  {
    var rest := n.projections + n.clauses;
    assert Children(Unlimited(n)) == rest;
    if n.limit.Some? {
      FilterConcat(rest, [n.limit.value], Lives);
      assert [n.limit.value][1..] == [];
    } else {
      assert Children(n) == rest;
    }
  }

  lemma WalkFromRoot(n: Node)
    ensures Walk([n]) == [n] + Walk(Children(n))
  {
    assert [n][1..] + Children(n) == Children(n);
  }

  lemma LimitIsNotFound(n: Node, p: Node -> bool)
    requires PlainLimit(n) && Ignores(p)
    ensures FindAll(n, p) ==
            (if p(n) then [n] else []) + Filter(Walk(Children(Unlimited(n))), p)
  {
    WalkFromRoot(n);
    FilterConcat([n], Walk(Children(n)), p);
    assert Filter([n], p) == if p(n) then [n] else [];
    WalkSkipsInert(Children(n), p);
    WalkSkipsInert(Children(Unlimited(n)), p);
    LiveChildren(n);
  }
}
