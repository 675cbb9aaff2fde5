/** Routing of method calls by object path, src/routing.rs: a trie with inherited handlers. */
module Calls {
  import opened Utils

  /** Object paths as their components. */
  type Comp = string
  type Path = seq<Comp>

  type QueueId = nat

  /** Every registration of a queue makes a new one. */
  datatype Handler = Queue(id: QueueId) | Exact(id: QueueId) | Intro | Nothing | Drop

  datatype Action = QueueAction | ExactAction | IntroAction | NothingAction | DropAction

  datatype Node = Node(handler: Handler, children: map<Comp, Node>)

  const ROOT := Node(Drop, map[])

  function At(n: Node, p: Path): Option<Node> {
    if p == [] then Some(n)
    else if p[0] in n.children then At(n.children[p[0]], p[1..])
    else None
  }

  /** `find_inner`. */
  function FindInner(n: Node, p: Path): Option<Handler> {
    if p == [] then Some(n.handler)
    else if p[0] in n.children then FindInner(n.children[p[0]], p[1..])
    else None
  }

  function GetQueue(n: Node, p: Path): Option<QueueId> {
    match FindInner(n, p)
    case Some(Queue(q)) => Some(q)
    case Some(Exact(q)) => Some(q)
    case _ => None
  }

  /** The handler registered for a path; `Nothing` where there is none. */
  function Lookup(n: Node, p: Path): Handler {
    var h := FindInner(n, p);
    if h.Some? then h.value else Nothing
  }

  /** The flat view of the trie: the registered paths and their handlers. */
  ghost function AsMap(n: Node): imap<Path, Handler> {
    imap p | Lookup(n, p) != Nothing :: Lookup(n, p)
  }

  /** A node worth keeping. */
  predicate Live(n: Node) {
    n.handler != Nothing || n.children != map[]
  }

  /** No node below this one is without a handler and without children. */
  ghost predicate Pruned(n: Node) {
    forall c :: c in n.children ==> Live(n.children[c]) && Pruned(n.children[c])
  }

  /** `insert_inner`: the new node, and whether its parent is to keep it. */
  function InsertInner(n: Node, p: Path, h: Handler): (Node, bool)
    decreases |p|
  {
    if p == [] then
      (n.(handler := h), h != Nothing || n.children != map[])
    else
      var c := p[0];
      if c in n.children then
        var (entry, keep) := InsertInner(n.children[c], p[1..], h);
        if keep then (n.(children := n.children[c := entry]), true)
        else
          var left := n.children - {c};
          (n.(children := left), !(left == map[] && n.handler == Nothing))
      else
        var (entry, keep) := InsertInner(Node(Nothing, map[]), p[1..], h);
        if keep then (n.(children := n.children[c := entry]), true) else (n, n.handler != Nothing)
  }

  /** `InsertInner` where the child exists; `rest` are the other children. */
  lemma InsertExisting(n: Node, p: Path, h: Handler, rest: map<Comp, Node>)
    requires p != [] && p[0] in n.children && rest == n.children - {p[0]}
    ensures var (entry, keep) := InsertInner(n.children[p[0]], p[1..], h);
      InsertInner(n, p, h) ==
        if keep then (Node(n.handler, rest[p[0] := entry]), true)
        else (Node(n.handler, rest), !(rest == map[] && n.handler == Nothing))
  {
    var (entry, keep) := InsertInner(n.children[p[0]], p[1..], h);
    assert n.children[p[0] := entry] == rest[p[0] := entry];
  }

  lemma InsertNew(n: Node, p: Path, h: Handler)
    requires p == [] || p[0] !in n.children
    ensures p == [] ==> InsertInner(n, p, h) == (Node(h, n.children), h != Nothing || n.children != map[])
    ensures p != [] ==>
      var (entry, keep) := InsertInner(Node(Nothing, map[]), p[1..], h);
      InsertInner(n, p, h) == if keep then (Node(n.handler, n.children[p[0] := entry]), true) else (n, n.handler != Nothing)
  {
  }

  datatype Status = ToQueue(id: QueueId) | Introspect(keys: map<Comp, Node>) | Dropped | Unhandled(keys: map<Comp, Node>)

  /** `send_inner`. */
  function SendInner(n: Node, p: Path): Status
    decreases |p|
  {
    if p == [] then
      match n.handler
      case Queue(q) => ToQueue(q)
      case Exact(q) => ToQueue(q)
      case Nothing => Unhandled(n.children)
      case Drop => Dropped
      case Intro => Introspect(n.children)
    else if p[0] in n.children then
      match SendInner(n.children[p[0]], p[1..])
      case Unhandled(keys) => (
        match n.handler
        case Nothing => Unhandled(keys)
        case Queue(q) => ToQueue(q)
        case Intro => Introspect(keys)
        case Exact(_) => Dropped
        case Drop => Dropped)
      case ToQueue(q) => ToQueue(q)
      case Introspect(keys) => Introspect(keys)
      case Dropped => Dropped
    else
      match n.handler
      case Queue(q) => ToQueue(q)
      case Nothing => Unhandled(map[])
      case Intro => Dropped
      case Exact(_) => Dropped
      case Drop => Dropped
  }

  /** `is_match_inner`. */
  predicate IsMatchInner(n: Node, org: Path, msg: Path)
    decreases |msg|
  {
    if msg == [] then org == [] && (n.handler.Queue? || n.handler.Exact?)
    else if org != [] then org[0] == msg[0] && org[0] in n.children && IsMatchInner(n.children[org[0]], org[1..], msg[1..])
    else if msg[0] in n.children then SendInner(n.children[msg[0]], msg[1..]).Unhandled? && (n.handler.Queue? || n.handler.Exact?)
    else n.handler.Queue?
  }

  // ----- The trie refines a map -----

  /** Length of the longest prefix of `p` that is a node. */
  function Deepest(n: Node, p: Path): (k: nat)
    ensures k <= |p|
  {
    if p == [] || p[0] !in n.children then 0 else 1 + Deepest(n.children[p[0]], p[1..])
  }

  lemma LookupStep(n: Node, c: Comp, q: Path)
    ensures Lookup(n, [c] + q) == if c in n.children then Lookup(n.children[c], q) else Nothing
    ensures Lookup(n, []) == n.handler
  {
    assert ([c] + q)[1..] == q;
  }

  /** Registering a handler changes that path and no other. */
  lemma {:induction false} InsertHandler(n: Node, p: Path, h: Handler, q: Path)
    requires h != Nothing
    ensures InsertInner(n, p, h).1
    ensures Lookup(InsertInner(n, p, h).0, q) == if q == p then h else Lookup(n, q)
    decreases |p|
  {
    if p != [] {
      var c, n' := p[0], InsertInner(n, p, h).0;
      var child := if c in n.children then n.children[c] else Node(Nothing, map[]);
      InsertHandler(child, p[1..], h, if q != [] then q[1..] else []);
      if q != [] {
        assert q == [q[0]] + q[1..] && p == [c] + p[1..];
        NothingBelow(q[1..]);
      }
    }
  }

  lemma NothingBelow(q: Path)
    ensures Lookup(Node(Nothing, map[]), q) == Nothing
  {
  }

  /** The path drops out of the map alone: it is a node, or the deepest node on the way to it is the root or has a handler. */
  predicate RemovesAlone(n: Node, p: Path) {
    var k := Deepest(n, p);
    k == |p| || k == 0 || Lookup(n, p[..k]) != Nothing
  }

  /** What a trie has at `q` once `Nothing` was inserted at `p`: else the deepest node goes with all below it. */
  function AfterRemoval(n: Node, p: Path, q: Path): Handler {
    if RemovesAlone(n, p) then (if q == p then Nothing else Lookup(n, q))
    else if p[..Deepest(n, p)] <= q then Nothing
    else Lookup(n, q)
  }

  /** The node itself is to be dropped by its parent because it neither leads to `p` nor has a handler. */
  predicate DeadEnd(n: Node, p: Path) {
    p != [] && Deepest(n, p) == 0 && n.handler == Nothing
  }

  lemma {:induction false} RemoveHandler(n: Node, p: Path, q: Path)
    ensures var (n', keep) := InsertInner(n, p, Nothing);
      && Lookup(n', q) == AfterRemoval(n, p, q)
      && keep == (Live(n') && !DeadEnd(n, p))
    decreases |p|
  {
    if p != [] {
      var c := p[0];
      if c in n.children {
        var child, rest := n.children[c], p[1..];
        RemoveHandler(child, rest, if q != [] then q[1..] else []);
        RemovalStep(n, p, q);
      } else {
        DeadBranch(p[1..]);
      }
    }
  }

  lemma DeadBranch(p: Path)
    ensures !InsertInner(Node(Nothing, map[]), p, Nothing).1
  {
  }

  lemma RemovalStep(n: Node, p: Path, q: Path)
    requires p != [] && p[0] in n.children
    requires var child, rest, q' := n.children[p[0]], p[1..], if q != [] then q[1..] else [];
      var (entry, keep) := InsertInner(child, rest, Nothing);
      && Lookup(entry, q') == AfterRemoval(child, rest, q')
      && keep == (Live(entry) && !DeadEnd(child, rest))
    ensures var (n', keep) := InsertInner(n, p, Nothing);
      && Lookup(n', q) == AfterRemoval(n, p, q)
      && keep == (Live(n') && !DeadEnd(n, p))
  {
    var c, child, rest := p[0], n.children[p[0]], p[1..];
    var (entry, keep) := InsertInner(child, rest, Nothing);
    var k := Deepest(child, rest);
    assert Deepest(n, p) == k + 1;
    assert p[..k + 1] == [c] + rest[..k];
    LookupStep(n, c, rest[..k]);
    if q != [] {
      assert q == [q[0]] + q[1..] && p == [c] + rest;
      if q[0] == c {
        LookupStep(n, c, q[1..]);
        assert p[..k + 1] <= q <==> rest[..k] <= q[1..];
        if !Live(entry) { NothingBelow(q[1..]); assert entry == Node(Nothing, map[]); }
      }
    }
  }

  lemma {:induction false} KeptIsLive(n: Node, p: Path, h: Handler)
    ensures InsertInner(n, p, h).1 ==> Live(InsertInner(n, p, h).0)
    decreases |p|
  {
    if p != [] {
      var child := if p[0] in n.children then n.children[p[0]] else Node(Nothing, map[]);
      KeptIsLive(child, p[1..], h);
      assert p[0] in n.children[p[0] := InsertInner(child, p[1..], h).0];
    }
  }

  /** Every insertion keeps the trie pruned. */
  lemma {:induction false} InsertKeepsPruned(n: Node, p: Path, h: Handler)
    requires Pruned(n)
    ensures Pruned(InsertInner(n, p, h).0)
    decreases |p|
  {
    if p != [] {
      var c := p[0];
      var child := if c in n.children then n.children[c] else Node(Nothing, map[]);
      InsertKeepsPruned(child, p[1..], h);
      KeptIsLive(child, p[1..], h);
    }
  }

  /** In a pruned trie something is registered at or below every live node. */
  lemma {:induction false} LiveHasRegistered(n: Node) returns (q: Path)
    requires Live(n) && Pruned(n)
    ensures Lookup(n, q) != Nothing
  {
    if n.handler != Nothing {
      q := [];
    } else {
      var c :| c in n.children;
      var rest := LiveHasRegistered(n.children[c]);
      q := [c] + rest;
      LookupStep(n, c, rest);
    }
  }

  lemma {:induction false} DeepestNode(n: Node, p: Path)
    requires Pruned(n)
    ensures var k := Deepest(n, p); At(n, p[..k]).Some? && (k > 0 ==> Live(At(n, p[..k]).value)) && Pruned(At(n, p[..k]).value)
    ensures Deepest(n, p) < |p| ==> Lookup(n, p) == Nothing
  {
    if p != [] && p[0] in n.children {
      var k := Deepest(n.children[p[0]], p[1..]);
      DeepestNode(n.children[p[0]], p[1..]);
      assert p[..k + 1][1..] == p[1..][..k];
    }
  }

  lemma {:induction false} LookupBelow(n: Node, d: Path, q: Path)
    requires At(n, d).Some?
    ensures Lookup(n, d + q) == Lookup(At(n, d).value, q)
  {
    if d == [] {
      assert d + q == q;
    } else {
      assert (d + q)[1..] == d[1..] + q;
      LookupBelow(n.children[d[0]], d[1..], q);
    }
  }

  /** Inserting `Nothing` removes the path and nothing else. */
  ghost predicate RemovesExactly(n: Node, p: Path) {
    forall q :: Lookup(InsertInner(n, p, Nothing).0, q) == if q == p then Nothing else Lookup(n, q)
  }

  /**
   Exactly when that is so: when the path is a node, or the deepest node on the way to it is the root or has a
   handler. Otherwise paths that are registered below that node are lost.
   */
  lemma RemovesExactlyIff(n: Node, p: Path)
    requires Pruned(n)
    ensures RemovesExactly(n, p) <==> RemovesAlone(n, p)
  {
    forall q ensures Lookup(InsertInner(n, p, Nothing).0, q) == AfterRemoval(n, p, q) {
      RemoveHandler(n, p, q);
    }
    if !RemovesAlone(n, p) {
      var d := p[..Deepest(n, p)];
      DeepestNode(n, p);
      var rest := LiveHasRegistered(At(n, d).value);
      LookupBelow(n, d, rest);
      assert AfterRemoval(n, p, d + rest) == Nothing;
    }
  }

  // ----- Queues -----

  ghost predicate QueuesBelow(n: Node, next: QueueId) {
    forall p :: GetQueue(n, p).Some? ==> GetQueue(n, p).value < next
  }

  ghost predicate DistinctQueues(n: Node) {
    forall p, q :: GetQueue(n, p).Some? && GetQueue(n, p) == GetQueue(n, q) ==> p == q
  }

  function HandlerFor(a: Action, next: QueueId): Handler {
    match a
    case QueueAction => Queue(next)
    case ExactAction => Exact(next)
    case IntroAction => Intro
    case NothingAction => Nothing
    case DropAction => Drop
  }

  lemma QueueOfLookup(n: Node, p: Path)
    ensures GetQueue(n, p) == match Lookup(n, p) case Queue(q) => Some(q) case Exact(q) => Some(q) case _ => None
  {
  }

  /** The handlers of a router after an insertion. */
  function AfterInsert(n: Node, p: Path, h: Handler, q: Path): Handler {
    if h != Nothing then (if q == p then h else Lookup(n, q)) else AfterRemoval(n, p, q)
  }

  lemma InsertEffect(n: Node, p: Path, h: Handler)
    ensures forall q :: Lookup(InsertInner(n, p, h).0, q) == AfterInsert(n, p, h, q)
  {
    forall q ensures Lookup(InsertInner(n, p, h).0, q) == AfterInsert(n, p, h, q) {
      if h != Nothing { InsertHandler(n, p, h, q); } else { RemoveHandler(n, p, q); }
    }
  }

  /** The trie as a map: inserting a handler is an update; inserting `Nothing` removes one path, or else a subtree. */
  lemma MapAfterInsert(n: Node, p: Path, h: Handler)
    ensures var m, m' := AsMap(n), AsMap(InsertInner(n, p, h).0);
      m' == if h != Nothing then m[p := h]
            else if RemovesAlone(n, p) then m - {p}
            else imap q | q in m && !(p[..Deepest(n, p)] <= q) :: m[q]
  {
    hide InsertInner, FindInner, Lookup, RemovesAlone, Deepest;
    InsertEffect(n, p, h);
  }

  /** Queues stay distinct because each registration makes a new one. */
  lemma InsertKeepsQueues(n: Node, p: Path, a: Action, next: QueueId)
    requires QueuesBelow(n, next) && DistinctQueues(n)
    ensures var n' := InsertInner(n, p, HandlerFor(a, next)).0; QueuesBelow(n', next + 1) && DistinctQueues(n')
  {
    hide InsertInner, FindInner, Deepest;
    var h := HandlerFor(a, next);
    var n' := InsertInner(n, p, h).0;
    InsertEffect(n, p, h);
    forall q ensures GetQueue(n', q) == GetQueue(n, q) || GetQueue(n', q) == None || (q == p && GetQueue(n', q) == Some(next)) {
      QueueOfLookup(n, q);
      QueueOfLookup(n', q);
    }
  }

  /** The trie after a run of `insert_path` calls on a new one. */
  function Build(ops: seq<(Path, Action)>): Node {
    if ops == [] then ROOT
    else
      var k := |ops| - 1;
      InsertInner(Build(ops[..k]), ops[k].0, HandlerFor(ops[k].1, k)).0
  }

  /** The same calls as updates and removals of a flat map. */
  ghost function Flat(ops: seq<(Path, Action)>): imap<Path, Handler> {
    if ops == [] then imap[[] := Drop]
    else
      var k := |ops| - 1;
      var m := Flat(ops[..k]);
      if ops[k].1.NothingAction? then m - {ops[k].0} else m[ops[k].0 := HandlerFor(ops[k].1, k)]
  }

  /** Every removal in the run is of a path that drops out alone. */
  predicate RemovalsAlone(ops: seq<(Path, Action)>) {
    ops != [] ==>
      var k := |ops| - 1;
      && RemovalsAlone(ops[..k])
      && (ops[k].1.NothingAction? ==> RemovesAlone(Build(ops[..k]), ops[k].0))
  }

  /** Over any run the trie stays pruned and its queues distinct, and while removals drop out alone it is the flat map. */
  lemma {:induction false} BuildRefinesFlat(ops: seq<(Path, Action)>)
    ensures Pruned(Build(ops)) && QueuesBelow(Build(ops), |ops|) && DistinctQueues(Build(ops))
    ensures RemovalsAlone(ops) ==> AsMap(Build(ops)) == Flat(ops)
  {
    hide InsertInner, Deepest, FindInner, QueuesBelow, DistinctQueues, RemovesAlone, AsMap, Pruned;
    if ops == [] {
      NewRouter();
    } else {
      var k := |ops| - 1;
      var n, p, a := Build(ops[..k]), ops[k].0, ops[k].1;
      BuildRefinesFlat(ops[..k]);
      InsertKeepsPruned(n, p, HandlerFor(a, k));
      InsertKeepsQueues(n, p, a, k);
      MapAfterInsert(n, p, HandlerFor(a, k));
    }
  }

  lemma NewRouter()
    ensures Pruned(ROOT) && QueuesBelow(ROOT, 0) && DistinctQueues(ROOT) && AsMap(ROOT) == imap[[] := Drop]
  {
    assert forall p :: p != [] ==> Lookup(ROOT, p) == Nothing;
    assert Lookup(ROOT, []) == Drop;
    forall p ensures GetQueue(ROOT, p) == None { QueueOfLookup(ROOT, p); }
  }

  /** Such a loss: with a queue at /a/b only, inserting `Nothing` at /a/c drops that queue. */
  lemma RemovalLosesQueue()
    ensures var n := Build([(["a", "b"], QueueAction)]);
      && !RemovesAlone(n, ["a", "c"])
      && GetQueue(n, ["a", "b"]) == Some(0) && GetQueue(InsertInner(n, ["a", "c"], Nothing).0, ["a", "b"]) == None
  {
    var op := (["a", "b"], QueueAction);
    assert [op][..0] == [];
    assert Build([op]) == InsertInner(ROOT, ["a", "b"], Queue(0)).0;
    assert ["a", "b"][1..] == ["b"] && ["b"][1..] == [] && ["a", "c"][1..] == ["c"] && ["c"][1..] == [];
    var b := Node(Queue(0), map[]);
    assert InsertInner(Node(Nothing, map[]), ["b"], Queue(0)) == (Node(Nothing, map["b" := b]), true);
    var a := Node(Nothing, map["b" := b]);
    var n := Node(Drop, map["a" := a]);
    assert Build([op]) == n;
    assert Deepest(a, ["c"]) == 0 && Deepest(n, ["a", "c"]) == 1;
    assert ["a", "c"][..1] == ["a"];
    assert FindInner(n, ["a"]) == FindInner(a, ["a"][1..]) == Some(Nothing);
    assert FindInner(a, ["b"]) == FindInner(b, ["b"][1..]) == Some(Queue(0));
    assert FindInner(n, ["a", "b"]) == FindInner(a, ["b"]);
    RemoveHandler(n, ["a", "c"], ["a", "b"]);
    assert ["a"] <= ["a", "b"];
    QueueOfLookup(InsertInner(n, ["a", "c"], Nothing).0, ["a", "b"]);
  }

  // ----- Routing a call -----

  /** The nearest registered path at or above the prefix of length `k`; -1 if there is none. */
  function NearestAbove(n: Node, p: Path, k: nat): (j: int)
    requires k <= |p|
    ensures -1 <= j <= k
    ensures j >= 0 ==> Lookup(n, p[..j]) != Nothing
    ensures forall i :: j < i <= k ==> Lookup(n, p[..i]) == Nothing
  {
    if Lookup(n, p[..k]) != Nothing then k else if k == 0 then -1 else NearestAbove(n, p, k - 1)
  }

  function Nearest(n: Node, p: Path): (j: int)
    ensures -1 <= j <= Deepest(n, p)
  {
    NearestAbove(n, p, Deepest(n, p))
  }

  lemma DeepestStep(n: Node, c: Comp, p: Path)
    ensures Deepest(n, [c] + p) == if c in n.children then 1 + Deepest(n.children[c], p) else 0
  {
    assert ([c] + p)[1..] == p;
  }

  lemma NearestStep(n: Node, c: Comp, p: Path)
    ensures var own := if n.handler != Nothing then 0 else -1;
      Nearest(n, [c] + p) ==
        if c !in n.children then own
        else if Nearest(n.children[c], p) >= 0 then 1 + Nearest(n.children[c], p)
        else own
  {
    hide Lookup, FindInner, Deepest, At;
    DeepestStep(n, c, p);
    LookupStep(n, c, p);
    var q := [c] + p;
    assert q[..0] == [];
    if c in n.children {
      var k, j := Deepest(n.children[c], p), Nearest(n, q);
      forall i | 0 <= i <= k ensures Lookup(n, q[..1 + i]) == Lookup(n.children[c], p[..i]) {
        assert q[..1 + i] == [c] + p[..i];
        LookupStep(n, c, p[..i]);
      }
      var j' := Nearest(n.children[c], p);
      assert j' >= 0 ==> Lookup(n, q[..1 + j']) != Nothing;
      assert forall i :: 1 <= i <= k + 1 ==> Lookup(n, q[..i]) == Lookup(n.children[c], p[..i - 1]);
    }
  }

  /**
   What becomes of a call for `p` when the longest existing prefix has length `k` and the nearest
   registered path at or above it has length `j`.
   */
  function Decide(n: Node, p: Path, k: nat, j: int): Status
    requires j <= k <= |p|
  {
    var keys := if k == |p| && At(n, p).Some? then At(n, p).value.children else map[];
    if j < 0 then Unhandled(keys)
    else
      match Lookup(n, p[..j])
      case Queue(q) => ToQueue(q)
      case Exact(q) => if j == |p| then ToQueue(q) else Dropped
      case Intro => if j < k || k == |p| then Introspect(keys) else Dropped
      case Drop => Dropped
      case Nothing => Unhandled(keys)
  }

  /** The recursive router finds the longest existing prefix, then the nearest registered path, and decides by that. */
  lemma {:induction false} SendIsDecided(n: Node, p: Path)
    ensures SendInner(n, p) == Decide(n, p, Deepest(n, p), Nearest(n, p))
    decreases |p|
  {
    if p == [] {
      assert p[..0] == [];
    } else {
      var c, rest := p[0], p[1..];
      assert p == [c] + rest;
      NearestStep(n, c, rest);
      DeepestStep(n, c, rest);
      assert p[..0] == [];
      if c in n.children {
        SendIsDecided(n.children[c], rest);
        if Nearest(n.children[c], rest) >= 0 { DecideStep(n, c, rest); }
      }
    }
  }

  lemma DecideStep(n: Node, c: Comp, p: Path)
    requires c in n.children && Nearest(n.children[c], p) >= 0
    ensures var q, k, j := [c] + p, Deepest(n.children[c], p), Nearest(n.children[c], p);
      Decide(n, q, 1 + k, 1 + j) == Decide(n.children[c], p, k, j)
  {
    hide FindInner, Deepest, Nearest, Lookup;
    var q, j := [c] + p, Nearest(n.children[c], p);
    assert q[..1 + j] == [c] + p[..j];
    LookupStep(n, c, p[..j]);
    assert q[1..] == p;
  }

  /** A path is matched against the message by `is_match_inner` exactly when it is the nearest registered one and its handler takes the message. */
  lemma {:induction false} MatchIsNearest(n: Node, org: Path, msg: Path)
    ensures IsMatchInner(n, org, msg) <==>
      && org <= msg && |org| == Nearest(n, msg)
      && (Lookup(n, org).Queue? || (Lookup(n, org).Exact? && (org == msg || |org| < Deepest(n, msg))))
    decreases |msg|
  {
    if msg != [] {
      var c, rest := msg[0], msg[1..];
      assert msg == [c] + rest;
      NearestStep(n, c, rest);
      DeepestStep(n, c, rest);
      if org == [] {
        LookupStep(n, c, rest);
        if c in n.children { SendIsDecided(n.children[c], rest); UnhandledIff(n.children[c], rest); }
      } else {
        assert org == [org[0]] + org[1..];
        LookupStep(n, org[0], org[1..]);
        if org[0] == c && c in n.children { MatchIsNearest(n.children[c], org[1..], rest); }
      }
    }
  }

  lemma UnhandledIff(n: Node, p: Path)
    ensures SendInner(n, p).Unhandled? <==> Nearest(n, p) < 0
  {
    SendIsDecided(n, p);
  }

  /** The call for `msg` goes to the queue registered at `org`. */
  predicate Routes(n: Node, org: Path, msg: Path) {
    GetQueue(n, org).Some? && SendInner(n, msg) == ToQueue(GetQueue(n, org).value)
  }

  /** A call strictly below an `Exact` path, where the next component is a node and all below it leave the call unhandled. */
  predicate PassesExact(n: Node, org: Path, msg: Path) {
    && org < msg && Lookup(n, org).Exact?
    && var below := At(n, msg[..|org| + 1]);
       below.Some? && SendInner(below.value, msg[|org| + 1..]).Unhandled?
  }

  lemma {:induction false} PassesExactIff(n: Node, org: Path, msg: Path)
    ensures PassesExact(n, org, msg) <==>
      org < msg && |org| == Nearest(n, msg) && Lookup(n, org).Exact? && |org| < Deepest(n, msg)
  {
    if msg != [] {
      var c, rest := msg[0], msg[1..];
      assert msg == [c] + rest;
      NearestStep(n, c, rest);
      DeepestStep(n, c, rest);
      if org == [] {
        assert msg[..|org| + 1] == [c] && msg[|org| + 1..] == rest;
        assert [c][1..] == [];
        LookupStep(n, c, rest);
        if c in n.children {
          UnhandledIff(n.children[c], rest);
          assert At(n, [c]) == Some(n.children[c]);
        }
      } else if org < msg {
        assert org == [c] + org[1..];
        LookupStep(n, c, org[1..]);
        assert msg[..|org| + 1][1..] == rest[..|org|];
        assert msg[|org| + 1..] == rest[|org|..];
        if c in n.children {
          PassesExactIff(n.children[c], org[1..], rest);
        }
      }
    }
  }

  /** A queue gets the calls for which its path is the nearest registered one, an `Exact` one only those for the path itself. */
  lemma RoutesIff(n: Node, org: Path, msg: Path)
    requires DistinctQueues(n)
    ensures Routes(n, org, msg) <==>
      org <= msg && |org| == Nearest(n, msg) && (Lookup(n, org).Queue? || (Lookup(n, org).Exact? && org == msg))
  {
    hide FindInner, Deepest, Nearest, SendInner, At;
    SendIsDecided(n, msg);
    var j := Nearest(n, msg);
    QueueOfLookup(n, org);
    if j >= 0 {
      QueueOfLookup(n, msg[..j]);
    }
    assert msg[..|msg|] == msg;
    assert org <= msg && |org| == j ==> org == msg[..j];
  }

  /**
   The two routers agree, except for calls that pass an `Exact` path: these match it but are not routed to it.
   No call matches two paths.
   */
  lemma RoutersAgree(n: Node, org: Path, msg: Path)
    requires DistinctQueues(n)
    ensures IsMatchInner(n, org, msg) <==> Routes(n, org, msg) || PassesExact(n, org, msg)
    ensures !(Routes(n, org, msg) && PassesExact(n, org, msg))
  {
    hide FindInner, Deepest, Nearest, SendInner, At, IsMatchInner, Lookup, GetQueue, Routes, PassesExact;
    MatchIsNearest(n, org, msg);
    RoutesIff(n, org, msg);
    PassesExactIff(n, org, msg);
  }

  lemma MatchesOnePath(n: Node, msg: Path, a: Path, b: Path)
    requires IsMatchInner(n, a, msg) && IsMatchInner(n, b, msg)
    ensures a == b
  {
    hide FindInner, Deepest, Nearest, SendInner, IsMatchInner, Lookup;
    MatchIsNearest(n, a, msg);
    MatchIsNearest(n, b, msg);
    assert a == msg[..|a|] && b == msg[..|b|];
  }

  /** The exception is real: with `Exact` at /a and a queue at /a/b/c, a call for /a/b matches /a and is dropped. */
  lemma ExactMatchesWhatItDrops() returns (n: Node)
    ensures Pruned(n) && DistinctQueues(n)
    ensures IsMatchInner(n, ["a"], ["a", "b"]) && SendInner(n, ["a", "b"]) == Dropped
  {
    var c := Node(Queue(1), map[]);
    var b := Node(Nothing, map["c" := c]);
    var a := Node(Exact(0), map["b" := b]);
    n := Node(Drop, map["a" := a]);
    assert ["a", "b"][1..] == ["b"] && ["b"][1..] == [] && ["a"][1..] == [];
    assert SendInner(b, []) == Unhandled(b.children);
    assert SendInner(a, ["b"]) == Dropped;
    assert Live(c) && "c" in b.children && "b" in a.children;
    assert Pruned(b) && Pruned(a);
    forall q | GetQueue(c, q).Some? ensures q == [] {}
    forall q | GetQueue(b, q).Some? ensures q == ["c"] { assert q == [q[0]] + q[1..] && GetQueue(c, q[1..]).Some?; }
    forall q | GetQueue(a, q).Some?
      ensures (q == [] && GetQueue(a, q).value == 0) || (q == ["b", "c"] && GetQueue(a, q).value == 1)
    {
      if q != [] { assert q == [q[0]] + q[1..] && GetQueue(b, q[1..]) == GetQueue(a, q) && q[1..] == ["c"] && GetQueue(c, ["c"][1..]) == Some(1); }
    }
    forall p | GetQueue(n, p).Some? ensures p == if GetQueue(n, p).value == 0 then ["a"] else ["a", "b", "c"] {
      assert p == [p[0]] + p[1..] && GetQueue(a, p[1..]).Some?;
    }
  }

  // ----- What an action means -----

  /** `get_action`: the action of a node. A path that is none has no action. */
  function GetAction(n: Node, p: Path): Option<Action> {
    match FindInner(n, p)
    case None => None
    case Some(Queue(_)) => Some(QueueAction)
    case Some(Exact(_)) => Some(ExactAction)
    case Some(Intro) => Some(IntroAction)
    case Some(Nothing) => Some(NothingAction)
    case Some(Drop) => Some(DropAction)
  }

  /** In a pruned trie the nodes are the root and what leads to a registered path. */
  lemma {:induction false} NodeIff(n: Node, p: Path)
    requires Pruned(n)
    ensures FindInner(n, p).Some? <==> p == [] || exists q :: p <= q && Lookup(n, q) != Nothing
  {
    if p != [] {
      if FindInner(n, p).Some? {
        NodeAt(n, p);
        var below := LiveHasRegistered(At(n, p).value);
        LookupBelow(n, p, below);
        assert p <= p + below;
      }
      if q :| p <= q && Lookup(n, q) != Nothing {
        RegisteredIsNode(n, p, q);
      }
    }
  }

  lemma {:induction false} NodeAt(n: Node, p: Path)
    requires Pruned(n) && p != [] && FindInner(n, p).Some?
    ensures At(n, p).Some? && Live(At(n, p).value) && Pruned(At(n, p).value)
  {
    if p[1..] != [] { NodeAt(n.children[p[0]], p[1..]); }
  }

  lemma {:induction false} RegisteredIsNode(n: Node, p: Path, q: Path)
    requires p <= q && Lookup(n, q) != Nothing
    ensures FindInner(n, p).Some? && Deepest(n, q) >= |p|
  {
    if p != [] {
      RegisteredIsNode(n.children[p[0]], p[1..], q[1..]);
    }
  }

  /** `get_action` tells what a registered path has, and of others if they are nodes. */
  lemma ActionIff(n: Node, p: Path)
    requires Pruned(n)
    ensures GetAction(n, p).None? <==> p != [] && forall q :: p <= q ==> Lookup(n, q) == Nothing
    ensures GetAction(n, p) == Some(NothingAction) <==>
      Lookup(n, p) == Nothing && (p == [] || exists q :: p <= q && Lookup(n, q) != Nothing)
  {
    NodeIff(n, p);
  }

  /** What was inserted is what `get_action` gives. */
  lemma ActionRoundTrip(n: Node, p: Path, a: Action, next: QueueId)
    requires Pruned(n)
    ensures var n' := InsertInner(n, p, HandlerFor(a, next)).0;
      if a != NothingAction then GetAction(n', p) == Some(a) else GetAction(n', p) == None || GetAction(n', p) == Some(NothingAction)
  {
    InsertEffect(n, p, HandlerFor(a, next));
    if a == NothingAction {
      assert p[..Deepest(n, p)] <= p;
      assert AfterInsert(n, p, Nothing, p) == Nothing;
    } else {
      assert FindInner(InsertInner(n, p, HandlerFor(a, next)).0, p) == Some(HandlerFor(a, next)) by {
        hide InsertInner, FindInner;
        assert Lookup(InsertInner(n, p, HandlerFor(a, next)).0, p) == HandlerFor(a, next);
      }
    }
  }

  /** `q` is the path or below it, and no path between them is registered. */
  ghost predicate Under(n: Node, p: Path, q: Path) {
    p <= q && forall i :: |p| < i <= |q| ==> Lookup(n, q[..i]) == Nothing
  }

  lemma UnderNearest(n: Node, p: Path, q: Path)
    requires Lookup(n, p) != Nothing && Under(n, p, q)
    ensures Nearest(n, q) == |p| && q[..|p|] == p
  {
    hide FindInner, Deepest, Lookup;
    var j := Nearest(n, q);
    DeepEnough(n, p, q);
    assert q[..|p|] == p;
  }

  lemma {:induction false} DeepEnough(n: Node, p: Path, q: Path)
    requires Lookup(n, p) != Nothing && p <= q
    ensures Deepest(n, q) >= |p|
  {
    if p != [] { DeepEnough(n.children[p[0]], p[1..], q[1..]); }
  }

  /** The children that a call for `q` is answered with. */
  function ChildrenAt(n: Node, q: Path): map<Comp, Node> {
    if At(n, q).Some? then At(n, q).value.children else map[]
  }

  /** On the way from `p` to `q` there is a node below `p`. */
  predicate NodeBelow(n: Node, p: Path, q: Path) {
    |q| > |p| && At(n, q[..|p| + 1]).Some?
  }

  /** What becomes of calls for the path and below it, by the action it was given. */
  ghost predicate Acts(n: Node, p: Path, a: Action, next: QueueId) {
    && (a == QueueAction ==> forall q :: Under(n, p, q) ==> SendInner(n, q) == ToQueue(next))
    && (a == ExactAction ==> SendInner(n, p) == ToQueue(next) && forall q :: Under(n, p, q) && q != p ==> SendInner(n, q) == Dropped)
    && (a == DropAction ==> forall q :: Under(n, p, q) ==> SendInner(n, q) == Dropped)
    && (a == IntroAction ==>
          && SendInner(n, p) == Introspect(ChildrenAt(n, p))
          && forall q :: Under(n, p, q) && q != p ==>
               SendInner(n, q) == if NodeBelow(n, p, q) then Introspect(ChildrenAt(n, q)) else Dropped)
  }

  /** What becomes of a call for the path or below it, by the handler of the path. */
  lemma UnderDecides(n: Node, p: Path, q: Path)
    requires Lookup(n, p) != Nothing && Under(n, p, q)
    ensures var h := Lookup(n, p);
      && (h.Queue? ==> SendInner(n, q) == ToQueue(h.id))
      && (h.Exact? ==> SendInner(n, q) == if q == p then ToQueue(h.id) else Dropped)
      && (h == Drop ==> SendInner(n, q) == Dropped)
      && (h == Intro && q == p ==> SendInner(n, q) == Introspect(ChildrenAt(n, q)))
      && (h == Intro && q != p ==> SendInner(n, q) == if NodeBelow(n, p, q) then Introspect(ChildrenAt(n, q)) else Dropped)
  {
    hide FindInner, Deepest, Lookup, SendInner, At, Nearest;
    SendIsDecided(n, q);
    UnderNearest(n, p, q);
    NodeByDepth(n, q, |q|);
    assert q[..|q|] == q;
    if |q| > |p| { NodeByDepth(n, q, |p| + 1); }
  }

  /** Each action is what it is documented to be. */
  lemma ActionActs(n: Node, p: Path, a: Action, next: QueueId)
    ensures Acts(InsertInner(n, p, HandlerFor(a, next)).0, p, a, next)
  {
    hide FindInner, Deepest, Lookup, SendInner, At, Nearest, InsertInner, Under, ChildrenAt;
    var n' := InsertInner(n, p, HandlerFor(a, next)).0;
    InsertEffect(n, p, HandlerFor(a, next));
    if a != NothingAction {
      UnderItself(n', p);
      UnderDecides(n', p, p);
      forall q | Under(n', p, q)
        ensures a == QueueAction ==> SendInner(n', q) == ToQueue(next)
        ensures a == ExactAction && q != p ==> SendInner(n', q) == Dropped
        ensures a == DropAction ==> SendInner(n', q) == Dropped
        ensures a == IntroAction && q != p ==> SendInner(n', q) == if NodeBelow(n', p, q) then Introspect(ChildrenAt(n', q)) else Dropped
      {
        UnderDecides(n', p, q);
      }
    }
  }

  lemma UnderItself(n: Node, p: Path)
    ensures Under(n, p, p)
  {
  }

  lemma {:induction false} NodeByDepth(n: Node, q: Path, k: nat)
    requires k <= |q|
    ensures At(n, q[..k]).Some? <==> Deepest(n, q) >= k
  {
    if k > 0 {
      assert q[..k][1..] == q[1..][..k - 1];
      if q[0] in n.children { NodeByDepth(n.children[q[0]], q[1..], k - 1); }
    }
  }

  // ----- The trie in place -----

  /** The subtries `cs` share no node, and all their nodes are in `r`. */
  ghost predicate Owned(cs: map<Comp, CallHierarchy>, r: set<CallHierarchy>)
    reads r
    decreases r, 1
  {
    && (forall c :: c in cs ==> cs[c] in r && cs[c].repr <= r && cs[c].Valid())
    && (forall c, d :: c in cs && d in cs && c != d ==> cs[c].repr !! cs[d].repr)
  }

  ghost function Views(cs: map<Comp, CallHierarchy>, r: set<CallHierarchy>): (v: map<Comp, Node>)
    requires Owned(cs, r)
    reads r
    decreases r, 1
  {
    map c | c in cs :: cs[c].View()
  }

  lemma ViewKeys(cs: map<Comp, CallHierarchy>, r: set<CallHierarchy>)
    requires Owned(cs, r)
    ensures Views(cs, r).Keys == cs.Keys
  {
  }

  lemma TakeOut(cs: map<Comp, CallHierarchy>, c: Comp, r: set<CallHierarchy>)
    requires Owned(cs, r) && c in cs
    ensures cs[c].Valid() && cs[c].repr <= r
    ensures Owned(cs - {c}, r - cs[c].repr)
    ensures Views(cs, r) == Views(cs - {c}, r - cs[c].repr)[c := cs[c].View()]
  {
  }

  lemma PutIn(cs: map<Comp, CallHierarchy>, c: Comp, e: CallHierarchy, r: set<CallHierarchy>, r': set<CallHierarchy>)
    requires Owned(cs, r) && e.Valid() && r !! e.repr && r + e.repr <= r'
    ensures Owned(cs[c := e], r')
    ensures Views(cs[c := e], r') == Views(cs, r)[c := e.View()]
  {
  }

  lemma Widen(cs: map<Comp, CallHierarchy>, r: set<CallHierarchy>, r': set<CallHierarchy>)
    requires Owned(cs, r) && r <= r'
    ensures Owned(cs, r') && Views(cs, r') == Views(cs, r)
  {
  }

  /** `CallHierarchy`: a node that owns the nodes below it. */
  class CallHierarchy {
    var handler: Handler
    var children: map<Comp, CallHierarchy>
    ghost var repr: set<CallHierarchy>

    ghost predicate Valid()
      reads this, repr
      decreases repr, 0
    {
      this in repr && Owned(children, repr - {this})
    }

    /** The trie as a value. */
    ghost function View(): Node
      requires Valid()
      reads this, repr
      decreases repr, 0
    {
      Node(handler, Views(children, repr - {this}))
    }

    constructor (h: Handler)
      ensures Valid() && fresh(repr) && View() == Node(h, map[])
    {
      handler, children, repr := h, map[], {this};
    }

    method Insert(p: Path, h: Handler) returns (keep: bool)
      requires Valid()
      modifies repr
      ensures Valid() && fresh(repr - old(repr))
      ensures View() == InsertInner(old(View()), p, h).0
      ensures keep == InsertInner(old(View()), p, h).1
      decreases |p|, 1
    {
      hide Owned, Views, InsertInner;
      ghost var was, others := View(), repr - {this};
      ViewKeys(children, others);
      if p == [] || p[0] !in children {
        InsertNew(was, p, h);
      }
      if p == [] {
        handler := h;
        return h != Nothing || children != map[];
      }
      var c := p[0];
      if c in children {
        keep := InsertThrough(p, h);
      } else {
        var entry := new CallHierarchy(Nothing);
        keep := entry.Insert(p[1..], h);
        assert Owned(children, others) && Views(children, others) == was.children;
        if keep {
          children, repr := children[c := entry], repr + entry.repr;
          PutIn(old(children), c, entry, others, repr - {this});
        } else {
          keep := handler != Nothing;
        }
      }
    }

    /** The case of an existing child. */
    method InsertThrough(p: Path, h: Handler) returns (keep: bool)
      requires Valid() && p != [] && p[0] in children
      modifies repr
      ensures Valid() && fresh(repr - old(repr))
      ensures View() == InsertInner(old(View()), p, h).0
      ensures keep == InsertInner(old(View()), p, h).1
      decreases |p|, 0
    {
      hide Owned, Views, InsertInner;
      ghost var was, others := View(), repr - {this};
      var c, entry := p[0], children[p[0]];
      ghost var rest := others - entry.repr;
      TakeOut(children, c, others);
      ghost var views := Views(children - {c}, rest);
      ViewKeys(children - {c}, rest);
      ViewKeys(children, others);
      InsertExisting(was, p, h, views);
      keep := entry.Insert(p[1..], h);
      assert Owned(children - {c}, rest) && Views(children - {c}, rest) == views;
      if keep {
        assert children == (children - {c})[c := entry];
        repr := repr + entry.repr;
        PutIn(children - {c}, c, entry, rest, repr - {this});
      } else {
        children := children - {c};
        Widen(children, rest, repr - {this});
        keep := !(children == map[] && handler == Nothing);
      }
    }

    /** `insert_path`, with the queue that is made for the action. */
    method InsertPath(path: Path, action: Action, next: QueueId)
      requires Valid() && Pruned(View()) && DistinctQueues(View()) && QueuesBelow(View(), next)
      modifies repr
      ensures Valid() && Pruned(View()) && DistinctQueues(View()) && QueuesBelow(View(), next + 1)
      ensures action != NothingAction ==> AsMap(View()) == old(AsMap(View()))[path := HandlerFor(action, next)]
      ensures Acts(View(), path, action, next)
      ensures action != NothingAction ==> GetAction(View(), path) == Some(action)
      ensures action == NothingAction && old(RemovesAlone(View(), path)) ==> AsMap(View()) == old(AsMap(View())) - {path}
      ensures action == NothingAction && !old(RemovesAlone(View(), path)) ==>
        AsMap(View()) == imap q | q in old(AsMap(View())) && !(path[..Deepest(old(View()), path)] <= q) :: old(AsMap(View()))[q]
    {
      hide Owned, Views, Pruned, DistinctQueues, QueuesBelow, AsMap, RemovesAlone, Deepest, Acts, GetAction;
      ghost var was := View();
      var h := HandlerFor(action, next);
      var _ := Insert(path, h);
      InsertKeepsPruned(was, path, h);
      InsertKeepsQueues(was, path, action, next);
      MapAfterInsert(was, path, h);
      ActionActs(was, path, action, next);
      ActionRoundTrip(was, path, action, next);
    }
  }
}
