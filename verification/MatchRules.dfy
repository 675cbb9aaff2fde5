/** Signal match rules, their order by specificity and the sorted list of them, src/routing.rs and src/lib.rs. */
module MatchRules {
  import opened Utils
  import opened HeaderCodec

  datatype Ordering = Less | Equal | Greater

  function Reverse(o: Ordering): Ordering {
    match o case Less => Greater case Equal => Equal case Greater => Less
  }

  /** `then_with`: the first comparison that decides. */
  function Then(o: Ordering, next: Ordering): Ordering {
    if o == Equal then next else o
  }

  /** Three comparisons of one weak order, of a and b, b and c, and a and c. */
  predicate Chain(ab: Ordering, bc: Ordering, ac: Ordering) {
    && (ab == bc ==> ac == ab)
    && (ab == Equal ==> ac == bc)
    && (bc == Equal ==> ac == ab)
  }

  // ----- Strings and paths -----

  /** Code points compare like the bytes of their UTF-8 form. */
  function StrCmp(a: string, b: string): Ordering {
    if a == [] && b == [] then Equal
    else if a == [] then Less
    else if b == [] then Greater
    else if a[0] < b[0] then Less
    else if a[0] > b[0] then Greater
    else StrCmp(a[1..], b[1..])
  }

  lemma {:induction false} StrCmpOrder(a: string, b: string)
    ensures StrCmp(a, b) == Equal <==> a == b
    ensures StrCmp(b, a) == Reverse(StrCmp(a, b))
  {
    if a != [] && b != [] {
      StrCmpOrder(a[1..], b[1..]);
      assert a == [a[0]] + a[1..] && b == [b[0]] + b[1..];
    }
  }

  lemma {:induction false} StrCmpChain(a: string, b: string, c: string)
    ensures Chain(StrCmp(a, b), StrCmp(b, c), StrCmp(a, c))
  {
    if a != [] && b != [] && c != [] {
      StrCmpChain(a[1..], b[1..], c[1..]);
    }
  }

  /** The order of options: `None` comes first. */
  function OptCmp(a: Option<string>, b: Option<string>): Ordering {
    match (a, b)
    case (None, None) => Equal
    case (None, Some(_)) => Less
    case (Some(_), None) => Greater
    case (Some(x), Some(y)) => StrCmp(x, y)
  }

  lemma OptCmpOrder(a: Option<string>, b: Option<string>)
    ensures OptCmp(a, b) == Equal <==> a == b
    ensures OptCmp(b, a) == Reverse(OptCmp(a, b))
  {
    if a.Some? && b.Some? { StrCmpOrder(a.value, b.value); }
  }

  lemma OptCmpChain(a: Option<string>, b: Option<string>, c: Option<string>)
    ensures Chain(OptCmp(a, b), OptCmp(b, c), OptCmp(a, c))
  {
    if a.Some? && b.Some? && c.Some? { StrCmpChain(a.value, b.value, c.value); }
  }

  /** The parts of a path between its slashes; `cur` is the part being read. */
  function Split(s: string, cur: string): (parts: seq<string>)
    ensures |parts| > 0
  {
    if s == [] then [cur]
    else if s[0] == '/' then [cur] + Split(s[1..], [])
    else Split(s[1..], cur + [s[0]])
  }

  function Proper(parts: seq<string>): seq<string> {
    if parts == [] then []
    else (if parts[0] == "" || parts[0] == "." then [] else [parts[0]]) + Proper(parts[1..])
  }

  /** The components of a path as `std::path::Path` gives them. */
  function Components(s: string): seq<string> {
    var parts := Split(s, []);
    (if s != [] && s[0] == '/' then ["/"] else if parts[0] == "." then ["."] else []) + Proper(parts)
  }

  lemma {:induction false} SplitAppend(s: string, cur: string, t: string)
    ensures Split(s + "/" + t, cur) == Split(s, cur) + Split(t, [])
  {
    var whole := s + "/" + t;
    if s == [] {
      assert whole[0] == '/' && whole[1..] == t;
    } else {
      assert whole[0] == s[0] && whole[1..] == s[1..] + "/" + t;
      if s[0] == '/' { SplitAppend(s[1..], [], t); } else { SplitAppend(s[1..], cur + [s[0]], t); }
    }
  }

  lemma {:induction false} ProperAppend(a: seq<string>, b: seq<string>)
    ensures Proper(a + b) == Proper(a) + Proper(b)
  {
    if a == [] {
      assert a + b == b;
    } else {
      assert (a + b)[1..] == a[1..] + b;
      ProperAppend(a[1..], b);
    }
  }

  predicate Plain(c: string) {
    c != "" && c != "." && '/' !in c
  }

  lemma {:induction false} SplitPlain(c: string, cur: string)
    requires '/' !in c
    ensures Split(c, cur) == [cur + c]
  {
    if c == [] {
      assert cur + c == cur;
    } else {
      SplitPlain(c[1..], cur + [c[0]]);
      assert cur + [c[0]] + c[1..] == cur + c;
    }
  }

  /** A path one component further down. */
  lemma ComponentsBelow(s: string, c: string)
    requires s != "" && Plain(c)
    ensures Components(s + "/" + c) == Components(s) + [c]
  {
    SplitAppend(s, [], c);
    SplitPlain(c, []);
    assert [] + c == c;
    ProperAppend(Split(s, []), [c]);
    assert Proper([c]) == [c] + Proper([]);
    assert (s + "/" + c)[0] == s[0];
  }

  /** Object paths are "/" followed by the components with slashes between them. */
  function Render(cs: seq<string>): string {
    if cs == [] then "/"
    else if |cs| == 1 then "/" + cs[0]
    else Render(cs[..|cs| - 1]) + "/" + cs[|cs| - 1]
  }

  lemma {:induction false} RenderComponents(cs: seq<string>)
    requires forall c :: c in cs ==> Plain(c)
    ensures Render(cs) != "" && Components(Render(cs)) == ["/"] + cs
  {
    if |cs| <= 1 {
      if cs == [] {
        assert Split("/", []) == [[]] + Split([], []);
        assert Proper([[], []]) == [];
      } else {
        assert cs[0] in cs;
        SplitAppend([], [], cs[0]);
        SplitPlain(cs[0], []);
        assert [] + cs[0] == cs[0] && [] + "/" + cs[0] == "/" + cs[0];
        assert Split([], []) == [[]];
        ProperAppend([[]], [cs[0]]);
        assert Proper([[]]) == [] + Proper([]);
        assert Proper([cs[0]]) == [cs[0]] + Proper([]);
        assert cs == [cs[0]];
      }
    } else {
      RenderComponents(cs[..|cs| - 1]);
      ComponentsBelow(Render(cs[..|cs| - 1]), cs[|cs| - 1]);
      assert cs == cs[..|cs| - 1] + [cs[|cs| - 1]];
    }
  }

  /** The string is a valid object path. */
  predicate Canonical(s: string) {
    var cs := Components(s);
    cs != [] && cs[0] == "/" && (forall c :: c in cs[1..] ==> Plain(c)) && s == Render(cs[1..])
  }

  lemma RenderCanonical(cs: seq<string>)
    requires forall c :: c in cs ==> Plain(c)
    ensures Canonical(Render(cs))
  {
    RenderComponents(cs);
    assert (["/"] + cs)[1..] == cs;
  }

  // ----- Rules -----

  datatype MatchRule = MatchRule(
    sender: Option<string>, path: Option<string>, namespace: Option<string>, interface: Option<string>, member: Option<string>)

  /** What `insert_sig_match` asserts and the setters keep. */
  predicate OnePath(r: MatchRule) {
    !(r.path.Some? && r.namespace.Some?)
  }

  /** The fields of a message that rules look at. */
  datatype Msg = Msg(
    typ: MessageType, sender: Option<string>, path: Option<string>, interface: Option<string>, member: Option<string>)

  predicate FieldMatches(want: Option<string>, have: Option<string>) {
    want.None? || have == want
  }

  predicate NamespaceMatches(want: Option<string>, have: Option<string>) {
    want.None? || (have.Some? && Components(want.value) <= Components(have.value))
  }

  /** `matches`. */
  predicate Matches(r: MatchRule, m: Msg) {
    && m.typ == Signal
    && FieldMatches(r.sender, m.sender)
    && FieldMatches(r.path, m.path)
    && NamespaceMatches(r.namespace, m.path)
    && FieldMatches(r.interface, m.interface)
    && FieldMatches(r.member, m.member)
  }

  function OptionOrd(left: Option<string>, right: Option<string>): Option<Ordering> {
    if left.Some? && right.None? then Some(Less)
    else if left.None? && right.Some? then Some(Greater)
    else None
  }

  /** One namespace is strictly inside the other. */
  predicate Inside(x: string, y: string) {
    Components(y) < Components(x)
  }

  predicate Nested(x: string, y: string) {
    Components(x) <= Components(y) || Components(y) <= Components(x)
  }

  /** What `path_subset` decides: the inner namespace first. */
  function NamespaceOrd(left: Option<string>, right: Option<string>): Option<Ordering> {
    if left.None? || right.None? then OptionOrd(left, right)
    else if Inside(left.value, right.value) then Some(Less)
    else if Inside(right.value, left.value) then Some(Greater)
    else None
  }

  method PathSubset(left: Option<string>, right: Option<string>) returns (r: Option<Ordering>)
    ensures r == NamespaceOrd(left, right)
  {
    var ord := OptionOrd(left, right);
    if ord.Some? { return ord; }
    if left.None? { return None; }
    var l, r' := Components(left.value), Components(right.value);
    var i := 0;
    while i < |l| && i < |r'| && l[i] == r'[i]
      invariant i <= |l| && i <= |r'| && l[..i] == r'[..i]
    {
      i := i + 1;
    }
    if i < |l| && i < |r'| {
      assert !(l <= r') && !(r' <= l);
      return None;
    }
    if i < |l| { assert r' == l[..i]; return Some(Less); }
    if i < |r'| { assert l == r'[..i]; return Some(Greater); }
    assert l == r';
    return None;
  }

  /** `cmp`. */
  function Cmp(a: MatchRule, b: MatchRule): Ordering {
    match OptionOrd(a.sender, b.sender) { case Some(o) => o case None =>
    match OptionOrd(a.path, b.path) { case Some(o) => o case None =>
    match NamespaceOrd(a.namespace, b.namespace) { case Some(o) => o case None =>
    match OptionOrd(a.interface, b.interface) { case Some(o) => o case None =>
    match OptionOrd(a.member, b.member) { case Some(o) => o case None =>
      Then(OptCmp(a.sender, b.sender),
      Then(OptCmp(a.path, b.path),
      Then(OptCmp(a.namespace, b.namespace),
      Then(OptCmp(a.interface, b.interface),
           OptCmp(a.member, b.member))))) }}}}}
  }

  function Bit(o: Option<string>): nat {
    if o.Some? then 1 else 0
  }

  /** How specific a rule is by what it sets; the earlier steps of the order weigh more. */
  function Weight(r: MatchRule): nat {
    16 * Bit(r.sender) + 8 * Bit(r.path) + 4 * Bit(r.namespace) + 2 * Bit(r.interface) + Bit(r.member)
  }

  predicate StrictlyInside(a: MatchRule, b: MatchRule) {
    a.namespace.Some? && b.namespace.Some? && Inside(a.namespace.value, b.namespace.value)
  }

  /**
   The order in other words: what the rules set decides, except that behind sender and path the inner of two nested
   namespaces comes first; the values decide last.
   */
  lemma CmpByWeight(a: MatchRule, b: MatchRule)
    ensures var u, v := Weight(a), Weight(b);
      Cmp(a, b) ==
        if u / 8 != v / 8 then (if u > v then Less else Greater)
        else if StrictlyInside(a, b) then Less
        else if StrictlyInside(b, a) then Greater
        else if u != v then (if u > v then Less else Greater)
        else Ties(a, b)
  {
    hide OptCmp, Components;
    CmpSteps(a, b);
    hide Cmp, Ties;
    assert Weight(a) / 8 == 2 * Bit(a.sender) + Bit(a.path);
    assert Weight(b) / 8 == 2 * Bit(b.sender) + Bit(b.path);
  }

  // ----- What the rules mean -----

  /** A path appended to another one. */
  lemma ComponentsAppend(s: string, t: string)
    requires s != ""
    ensures Components(s + "/" + t) == Components(s) + Proper(Split(t, []))
  {
    SplitAppend(s, [], t);
    ProperAppend(Split(s, []), Split(t, []));
    assert (s + "/" + t)[0] == s[0];
  }

  lemma {:induction false} RenderLonger(cs: seq<string>, ds: seq<string>)
    requires cs != [] && cs <= ds && cs != ds
    ensures Render(cs) + "/" <= Render(ds)
  {
    var n := |ds| - 1;
    var shorter := ds[..n];
    assert Render(ds) == Render(shorter) + "/" + ds[n];
    if cs == shorter {
      assert Render(cs) + "/" <= Render(ds);
    } else {
      RenderLonger(cs, shorter);
    }
  }

  /** A namespace is the path itself and what lies below it. */
  predicate InNamespace(s: string, p: string) {
    p == s || s == "/" || s + "/" <= p
  }

  lemma CanonicalComponents(s: string) returns (cs: seq<string>)
    requires Canonical(s)
    ensures Components(s) == ["/"] + cs && s == Render(cs) && s != "" && Components("/") == ["/"]
  {
    cs := Components(s)[1..];
    RenderComponents(cs);
    RenderComponents([]);
    assert ["/"] + [] == ["/"];
  }

  /** On valid object paths containment of components is that of the strings, slash by slash. */
  lemma NamespaceIff(s: string, p: string)
    requires Canonical(s) && Canonical(p)
    ensures Components(s) <= Components(p) <==> InNamespace(s, p)
  {
    hide Components, Canonical;
    var cs := CanonicalComponents(s);
    var ds := CanonicalComponents(p);
    if Components(s) <= Components(p) {
      ContainedRender(cs, ds);
    }
    if s != "/" && s + "/" <= p {
      var t := p[|s| + 1..];
      assert p == s + "/" + t;
      ComponentsAppend(s, t);
    }
  }

  lemma ContainedRender(cs: seq<string>, ds: seq<string>)
    requires ["/"] + cs <= ["/"] + ds
    ensures InNamespace(Render(cs), Render(ds))
  {
    assert cs == (["/"] + cs)[1..] && ds == (["/"] + ds)[1..];
    assert cs == (["/"] + ds)[1..][..|cs|];
    if cs != [] && cs != ds {
      RenderLonger(cs, ds);
    }
  }

  /** The strings of a rule and a message that are paths are valid object paths. */
  predicate CanonicalIn(r: MatchRule, m: Msg) {
    CanonicalPaths(r) && (m.path.Some? ==> Canonical(m.path.value))
  }

  /** What a rule asks of a message, on its strings. */
  predicate Accepts(r: MatchRule, m: Msg) {
    && m.typ == Signal
    && (r.sender.Some? ==> m.sender == r.sender)
    && (r.path.Some? ==> m.path == r.path)
    && (r.namespace.Some? ==> m.path.Some? && InNamespace(r.namespace.value, m.path.value))
    && (r.interface.Some? ==> m.interface == r.interface)
    && (r.member.Some? ==> m.member == r.member)
  }

  lemma MatchesIff(r: MatchRule, m: Msg)
    requires CanonicalIn(r, m)
    ensures Matches(r, m) <==> Accepts(r, m)
  {
    hide Components, Canonical;
    if r.namespace.Some? && m.path.Some? {
      NamespaceIff(r.namespace.value, m.path.value);
    }
  }

  /** `a` comes first in the lexicographic order: it ends where `b` goes on, or has the smaller character at the first difference. */
  ghost predicate Before(a: string, b: string) {
    exists k :: 0 <= k <= |a| && k < |b| && a[..k] == b[..k] && (k == |a| || a[k] < b[k])
  }

  lemma {:induction false} StrCmpIff(a: string, b: string)
    ensures StrCmp(a, b) == Less <==> Before(a, b)
  {
    if a != [] && b != [] && a[0] == b[0] {
      StrCmpIff(a[1..], b[1..]);
      if Before(a[1..], b[1..]) {
        var k :| 0 <= k <= |a[1..]| && k < |b[1..]| && a[1..][..k] == b[1..][..k] && (k == |a[1..]| || a[1..][k] < b[1..][k]);
        assert a[..k + 1] == [a[0]] + a[1..][..k] && b[..k + 1] == [b[0]] + b[1..][..k];
        assert Before(a, b);
      }
      if k :| 0 <= k <= |a| && k < |b| && a[..k] == b[..k] && (k == |a| || a[k] < b[k]) {
        assert k > 0;
        assert a[1..][..k - 1] == a[..k][1..] && b[1..][..k - 1] == b[..k][1..];
        assert Before(a[1..], b[1..]);
      }
    } else if b != [] {
      assert a[..0] == b[..0];
      if a == [] || a[0] < b[0] { assert Before(a, b); }
      if a != [] { FirstDiffers(a, b); }
    }
  }

  lemma FirstDiffers(a: string, b: string)
    requires a != [] && b != [] && a[0] != b[0]
    ensures forall k :: 0 < k <= |a| && k <= |b| ==> a[..k] != b[..k]
  {
    forall k | 0 < k <= |a| && k <= |b| ensures a[..k] != b[..k] {
      assert a[..k][0] == a[0] && b[..k][0] == b[0];
    }
  }

  /** The values of a rule in the order in which they are compared. */
  function Fields(r: MatchRule): (f: seq<Option<string>>)
    ensures |f| == 5
  {
    [r.sender, r.path, r.namespace, r.interface, r.member]
  }

  ghost predicate OptBefore(a: Option<string>, b: Option<string>) {
    b.Some? && (a.Some? ==> Before(a.value, b.value))
  }

  /** Among rules that set the same fields the first field that differs decides, by the lexicographic order. */
  lemma TiesIff(a: MatchRule, b: MatchRule)
    ensures Ties(a, b) == Less <==>
      exists k :: 0 <= k < 5 && Fields(a)[..k] == Fields(b)[..k] && OptBefore(Fields(a)[k], Fields(b)[k])
  {
    hide OptCmp, OptBefore;
    var x, y := Fields(a), Fields(b);
    forall k | 0 <= k < 5
      ensures OptCmp(x[k], y[k]) == Equal <==> x[k] == y[k]
      ensures OptCmp(x[k], y[k]) == Less <==> OptBefore(x[k], y[k])
    {
      OptCmpOrder(x[k], y[k]);
      OptCmpIff(x[k], y[k]);
    }
    assert forall k :: 0 <= k < 5 ==> (x[..k] == y[..k] <==> forall j :: 0 <= j < k ==> x[j] == y[j]);
    var k := if x[0] != y[0] then 0 else if x[1] != y[1] then 1 else if x[2] != y[2] then 2 else if x[3] != y[3] then 3 else 4;
    assert Ties(a, b) == OptCmp(x[k], y[k]);
    assert x[..k] == y[..k];
    forall j | 0 <= j < 5 && x[..j] == y[..j] && OptBefore(x[j], y[j]) ensures j == k {}
  }

  lemma OptCmpIff(a: Option<string>, b: Option<string>)
    ensures OptCmp(a, b) == Less <==> OptBefore(a, b)
  {
    if a.Some? && b.Some? { StrCmpIff(a.value, b.value); }
  }

  // ----- How far the order is one -----

  function Or(o: Option<Ordering>): Ordering {
    if o.Some? then o.value else Equal
  }

  /** The order as steps each of which may decide. */
  function Steps(a: MatchRule, b: MatchRule): Ordering {
    Then(Or(OptionOrd(a.sender, b.sender)),
    Then(Or(OptionOrd(a.path, b.path)),
    Then(Or(NamespaceOrd(a.namespace, b.namespace)),
    Then(Or(OptionOrd(a.interface, b.interface)),
    Then(Or(OptionOrd(a.member, b.member)), Ties(a, b))))))
  }

  function Ties(a: MatchRule, b: MatchRule): Ordering {
    Then(OptCmp(a.sender, b.sender),
    Then(OptCmp(a.path, b.path),
    Then(OptCmp(a.namespace, b.namespace),
    Then(OptCmp(a.interface, b.interface),
         OptCmp(a.member, b.member)))))
  }

  lemma CmpSteps(a: MatchRule, b: MatchRule)
    ensures Cmp(a, b) == Steps(a, b)
  {
    hide OptCmp, Components;
  }

  lemma TiesOrder(a: MatchRule, b: MatchRule)
    ensures Ties(a, b) == Equal <==> a == b
    ensures Ties(b, a) == Reverse(Ties(a, b))
  {
    hide OptCmp;
    OptCmpOrder(a.sender, b.sender);
    OptCmpOrder(a.path, b.path);
    OptCmpOrder(a.namespace, b.namespace);
    OptCmpOrder(a.interface, b.interface);
    OptCmpOrder(a.member, b.member);
  }

  /** The order says equal of equal rules only, and swapping its arguments reverses it. */
  lemma CmpOrder(a: MatchRule, b: MatchRule)
    ensures Cmp(a, b) == Equal <==> a == b
    ensures Cmp(b, a) == Reverse(Cmp(a, b))
  {
    hide OptCmp, Components, Ties, Cmp;
    CmpSteps(a, b);
    CmpSteps(b, a);
    TiesOrder(a, b);
  }

  /** `x` lies strictly inside `y`, and `z` is unrelated to `y`. */
  predicate Fork(x: Option<string>, y: Option<string>, z: Option<string>) {
    x.Some? && y.Some? && z.Some? && Inside(x.value, y.value) && !Nested(y.value, z.value)
  }

  ghost predicate NoFork(ns: iset<Option<string>>) {
    forall x, y, z :: x in ns && y in ns && z in ns ==> !Fork(x, y, z)
  }

  /** Comparisons of three namespaces chain unless they fork one way or another. */
  lemma NamespaceChain(a: Option<string>, b: Option<string>, c: Option<string>)
    requires NoFork(iset{a, b, c})
    ensures Chain(Or(NamespaceOrd(a, b)), Or(NamespaceOrd(b, c)), Or(NamespaceOrd(a, c)))
  {
    hide Components;
    if a.Some? && b.Some? && c.Some? {
      var s := iset{a, b, c};
      assert a in s && b in s && c in s;
      assert !Fork(a, b, c) && !Fork(a, c, b) && !Fork(b, a, c) && !Fork(b, c, a) && !Fork(c, a, b) && !Fork(c, b, a);
    }
  }

  lemma CmpChain(a: MatchRule, b: MatchRule, c: MatchRule)
    requires NoFork(iset{a.namespace, b.namespace, c.namespace})
    ensures Chain(Cmp(a, b), Cmp(b, c), Cmp(a, c))
  {
    hide OptCmp, Components, Cmp, Steps, NoFork, NamespaceOrd, Then, Ties, Chain;
    CmpSteps(a, b);
    CmpSteps(b, c);
    CmpSteps(a, c);
    NamespaceChain(a.namespace, b.namespace, c.namespace);
    StepsChain(a, b, c);
  }

  lemma OptionOrdChain(a: Option<string>, b: Option<string>, c: Option<string>)
    ensures Chain(Or(OptionOrd(a, b)), Or(OptionOrd(b, c)), Or(OptionOrd(a, c)))
  {
  }

  lemma TiesChain(a: MatchRule, b: MatchRule, c: MatchRule)
    ensures Chain(Ties(a, b), Ties(b, c), Ties(a, c))
  {
    hide OptCmp;
    OptCmpChain(a.sender, b.sender, c.sender);
    OptCmpChain(a.path, b.path, c.path);
    OptCmpChain(a.namespace, b.namespace, c.namespace);
    OptCmpChain(a.interface, b.interface, c.interface);
    OptCmpChain(a.member, b.member, c.member);
  }

  lemma StepsChain(a: MatchRule, b: MatchRule, c: MatchRule)
    requires Chain(Or(NamespaceOrd(a.namespace, b.namespace)), Or(NamespaceOrd(b.namespace, c.namespace)), Or(NamespaceOrd(a.namespace, c.namespace)))
    ensures Chain(Steps(a, b), Steps(b, c), Steps(a, c))
  {
    hide NamespaceOrd, OptCmp, Ties, OptionOrd, Or;
    TiesChain(a, b, c);
    OptionOrdChain(a.sender, b.sender, c.sender);
    OptionOrdChain(a.path, b.path, c.path);
    OptionOrdChain(a.interface, b.interface, c.interface);
    OptionOrdChain(a.member, b.member, c.member);
  }

  /** The order is transitive on the rules with these namespaces. */
  ghost predicate TransitiveOn(ns: iset<Option<string>>) {
    forall a, b, c ::
      (&& OnePath(a) && OnePath(b) && OnePath(c) && a.namespace in ns && b.namespace in ns && c.namespace in ns
       && Cmp(a, b) == Less && Cmp(b, c) == Less) ==> Cmp(a, c) == Less
  }

  /** `cmp` is an order exactly where no namespace has one inside it and another one beside it. */
  lemma TransitiveIff(ns: iset<Option<string>>)
    ensures TransitiveOn(ns) <==> NoFork(ns)
  {
    hide Cmp;
    if NoFork(ns) {
      forall a: MatchRule, b: MatchRule, c: MatchRule | a.namespace in ns && b.namespace in ns && c.namespace in ns
        && Cmp(a, b) == Less && Cmp(b, c) == Less
        ensures Cmp(a, c) == Less
      {
        CmpChain(a, b, c);
      }
    } else {
      var x, y, z :| x in ns && y in ns && z in ns && Fork(x, y, z);
      var a, b, c := ForkCycle(x, y, z);
      CmpOrder(a, c);
    }
  }

  /** Any fork gives three rules each of which is less than the next. */
  lemma ForkCycle(x: Option<string>, y: Option<string>, z: Option<string>) returns (a: MatchRule, b: MatchRule, c: MatchRule)
    requires Fork(x, y, z)
    ensures a == MatchRule(None, None, x, None, None) && b == MatchRule(None, None, y, Some("i"), Some("m"))
    ensures c == MatchRule(None, None, z, Some("i"), None)
    ensures Cmp(a, b) == Less && Cmp(b, c) == Less && Cmp(c, a) == Less
  {
    hide Components;
    a := MatchRule(None, None, x, None, None);
    b := MatchRule(None, None, y, Some("i"), Some("m"));
    c := MatchRule(None, None, z, Some("i"), None);
  }

  /** Such a fork, of valid object paths: /a/b inside /a, with /c beside it. */
  lemma NotTransitive()
    ensures Canonical(Render(["a", "b"])) && Canonical(Render(["a"])) && Canonical(Render(["c"]))
    ensures !TransitiveOn(iset{Some(Render(["a", "b"])), Some(Render(["a"])), Some(Render(["c"]))})
  {
    hide Canonical, Render, Components, Cmp, NoFork, TransitiveOn;
    var x, y, z := Some(Render(["a", "b"])), Some(Render(["a"])), Some(Render(["c"]));
    PlainLetters();
    RenderComponents(["a", "b"]);
    RenderComponents(["a"]);
    RenderComponents(["c"]);
    RenderCanonical(["a", "b"]);
    RenderCanonical(["a"]);
    RenderCanonical(["c"]);
    var l, m, r := ["/"] + ["a", "b"], ["/"] + ["a"], ["/"] + ["c"];
    assert l[..2] == m && m[1] != r[1];
    assert Fork(x, y, z);
    ForkIsNone(iset{x, y, z}, x, y, z);
    TransitiveIff(iset{x, y, z});
  }

  lemma PlainLetters()
    ensures Plain("a") && Plain("b") && Plain("c")
  {
  }

  lemma ForkIsNone(ns: iset<Option<string>>, x: Option<string>, y: Option<string>, z: Option<string>)
    requires x in ns && y in ns && z in ns && Fork(x, y, z)
    ensures !NoFork(ns)
  {
  }

  /** Rules that match one signal have nested namespaces, so that no fork is among them. */
  lemma MatchingHaveNoFork(m: Msg)
    ensures NoFork(iset r | Matches(r, m) :: r.namespace)
  {
    hide Components;
    var ns := iset r | Matches(r, m) :: r.namespace;
    forall x, y, z | x in ns && y in ns && z in ns ensures !Fork(x, y, z) {
      if y.Some? && z.Some? {
        var whole := Components(m.path.value);
        assert Components(y.value) <= whole && Components(z.value) <= whole;
        assert Components(y.value) == whole[..|Components(y.value)|];
        assert Components(z.value) == whole[..|Components(z.value)|];
      }
    }
  }

  /** Among the rules that match one signal the order is a strict total order. */
  lemma MatchingAreOrdered(m: Msg, a: MatchRule, b: MatchRule, c: MatchRule)
    requires Matches(a, m) && Matches(b, m) && Matches(c, m)
    ensures a == b || Cmp(a, b) == Less || Cmp(b, a) == Less
    ensures !(Cmp(a, b) == Less && Cmp(b, a) == Less) && Cmp(a, a) != Less
    ensures Cmp(a, b) == Less && Cmp(b, c) == Less ==> Cmp(a, c) == Less
  {
    hide Cmp, Matches;
    MatchingHaveNoFork(m);
    CmpChain(a, b, c);
    CmpOrder(a, b);
    CmpOrder(a, a);
  }

  // ----- Specificity -----

  ghost predicate Covers(b: MatchRule, a: MatchRule) {
    forall m :: Matches(a, m) ==> Matches(b, m)
  }

  predicate CanonicalPaths(r: MatchRule) {
    (r.path.Some? ==> Canonical(r.path.value)) && (r.namespace.Some? ==> Canonical(r.namespace.value))
  }

  /** The signal with nothing but what a rule asks for. */
  function Least(a: MatchRule, path: Option<string>): Msg {
    Msg(Signal, a.sender, path, a.interface, a.member)
  }

  /** A rule that matches less comes first. */
  lemma SpecificFirst(a: MatchRule, b: MatchRule)
    requires OnePath(a) && OnePath(b) && CanonicalPaths(a) && CanonicalPaths(b)
    requires Covers(b, a)
    ensures a == b || Cmp(a, b) == Less
  {
    hide Components, Canonical, Render;
    var m := Least(a, if a.path.Some? then a.path else a.namespace);
    assert Matches(a, m);
    assert Matches(b, m);
    if a.namespace.Some? {
      PathIsNotCovered(a, b);
      if b.namespace.Some? && Components(a.namespace.value) == Components(b.namespace.value) {
        SameComponents(a.namespace.value, b.namespace.value);
      }
    }
    OptCmpOrder(a.sender, a.sender);
    OptCmpOrder(a.path, a.path);
    OptCmpOrder(a.namespace, a.namespace);
    OptCmpOrder(a.interface, a.interface);
    OptCmpOrder(a.member, a.member);
  }

  lemma SameComponents(x: string, y: string)
    requires Canonical(x) && Canonical(y) && Components(x) == Components(y)
    ensures x == y
  {
  }

  lemma PathIsNotCovered(a: MatchRule, b: MatchRule)
    requires OnePath(a) && CanonicalPaths(a) && a.namespace.Some? && Covers(b, a)
    ensures b.path.None?
  {
    hide Components;
    var s := a.namespace.value;
    RenderNonEmpty(s);
    ComponentsBelow(s, "x");
    ComponentsBelow(s, "y");
    var m, m' := Least(a, Some(s + "/" + "x")), Least(a, Some(s + "/" + "y"));
    assert Matches(a, m) && Matches(a, m');
    assert Matches(b, m) && Matches(b, m');
    assert (s + "/" + "x")[|s| + 1] != (s + "/" + "y")[|s| + 1];
  }

  lemma RenderNonEmpty(s: string)
    requires Canonical(s)
    ensures s != ""
  {
    RenderComponents(Components(s)[1..]);
  }

  // ----- The sorted list -----

  /** A registered rule and the signals queued for it. */
  datatype Entry = Entry(rule: MatchRule, queue: seq<Msg>)

  predicate Sorted(es: seq<Entry>) {
    forall i, j :: 0 <= i < j < |es| ==> Cmp(es[i].rule, es[j].rule) == Less
  }

  lemma SortedDistinct(es: seq<Entry>)
    requires Sorted(es)
    ensures forall i, j :: 0 <= i < |es| && 0 <= j < |es| && es[i].rule == es[j].rule ==> i == j
  {
    hide Cmp;
    forall i, j | 0 <= i < j < |es| ensures es[i].rule != es[j].rule { CmpOrder(es[i].rule, es[j].rule); }
  }

  /** The registered rules with their queues. */
  ghost function Registered(es: seq<Entry>): (m: map<MatchRule, seq<Msg>>)
    requires Sorted(es)
    ensures forall e :: e in es ==> e.rule in m && m[e.rule] == e.queue
    ensures forall r :: r in m ==> Entry(r, m[r]) in es
  {
    SortedDistinct(es);
    map i | 0 <= i < |es| :: es[i].rule := es[i].queue
  }

  /** `binary_search` in the part of the list from `left` to `right`. */
  function Probe(es: seq<Entry>, r: MatchRule, left: nat, right: nat): (p: (bool, nat))
    requires left <= right <= |es|
    ensures left <= p.1 <= right
    ensures p.0 ==> p.1 < right && es[p.1].rule == r
    decreases right - left
  {
    if left == right then (false, left)
    else
      var mid := left + (right - left) / 2;
      CmpOrder(es[mid].rule, r);
      match Cmp(es[mid].rule, r)
      case Equal => (true, mid)
      case Less => Probe(es, r, mid + 1, right)
      case Greater => Probe(es, r, left, mid)
  }

  method Search(es: seq<Entry>, r: MatchRule) returns (found: bool, idx: nat)
    ensures (found, idx) == Probe(es, r, 0, |es|)
  {
    hide Cmp;
    var left, right := 0, |es|;
    while left < right
      invariant left <= right <= |es|
      invariant Probe(es, r, left, right) == Probe(es, r, 0, |es|)
    {
      var mid := left + (right - left) / 2;
      match Cmp(es[mid].rule, r) {
        case Equal => return true, mid;
        case Less => left := mid + 1;
        case Greater => right := mid;
      }
    }
    return false, left;
  }

  /** The rules in the list and another one compare as in an order. */
  ghost predicate Comparable(es: seq<Entry>, r: MatchRule) {
    NoFork((iset e | e in es :: e.rule.namespace) + iset{r.namespace})
  }

  lemma ComparableChain(es: seq<Entry>, r: MatchRule, i: nat, j: nat)
    requires Comparable(es, r) && i < |es| && j < |es|
    ensures Chain(Cmp(es[i].rule, es[j].rule), Cmp(es[j].rule, r), Cmp(es[i].rule, r))
    ensures Chain(Cmp(r, es[i].rule), Cmp(es[i].rule, es[j].rule), Cmp(r, es[j].rule))
  {
    hide Cmp, Chain, Fork;
    assert es[i] in es && es[j] in es;
    CmpChain(es[i].rule, es[j].rule, r);
    CmpChain(r, es[i].rule, es[j].rule);
  }

  /** Rules before the position are less, and rules from it on greater. */
  predicate Fits(es: seq<Entry>, r: MatchRule, left: nat, right: nat)
    requires left <= right <= |es|
  {
    && (forall i :: 0 <= i < left ==> Cmp(es[i].rule, r) == Less)
    && (forall i :: right <= i < |es| ==> Cmp(r, es[i].rule) == Less)
  }

  /** Binary search is right on a sorted list whose rules compare with the one searched for. */
  lemma {:induction false} ProbeFinds(es: seq<Entry>, r: MatchRule, left: nat, right: nat)
    requires Sorted(es) && Comparable(es, r) && left <= right <= |es| && Fits(es, r, left, right)
    ensures var p := Probe(es, r, left, right); if p.0 then es[p.1].rule == r else Fits(es, r, p.1, p.1)
    decreases right - left
  {
    hide Cmp, Comparable, Chain;
    if left < right {
      var mid := left + (right - left) / 2;
      CmpOrder(es[mid].rule, r);
      if Cmp(es[mid].rule, r) == Less {
        forall i | 0 <= i < mid ensures Cmp(es[i].rule, r) == Less { FirstLess(es, r, i, mid); }
        ProbeFinds(es, r, mid + 1, right);
      } else if Cmp(es[mid].rule, r) == Greater {
        forall i | mid < i < |es| ensures Cmp(r, es[i].rule) == Less { LastGreater(es, r, mid, i); }
        ProbeFinds(es, r, left, mid);
      }
    }
  }

  lemma FirstLess(es: seq<Entry>, r: MatchRule, i: nat, mid: nat)
    requires Sorted(es) && Comparable(es, r) && i < mid < |es| && Cmp(es[mid].rule, r) == Less
    ensures Cmp(es[i].rule, r) == Less
  {
    hide Cmp, Comparable;
    ComparableChain(es, r, i, mid);
  }

  lemma LastGreater(es: seq<Entry>, r: MatchRule, mid: nat, i: nat)
    requires Sorted(es) && Comparable(es, r) && mid < i < |es| && Cmp(r, es[mid].rule) == Less
    ensures Cmp(r, es[i].rule) == Less
  {
    hide Cmp, Comparable;
    ComparableChain(es, r, mid, i);
  }

  lemma RegisteredIs(es: seq<Entry>, m: map<MatchRule, seq<Msg>>)
    requires Sorted(es)
    requires forall e :: e in es ==> e.rule in m && m[e.rule] == e.queue
    requires forall r :: r in m ==> Entry(r, m[r]) in es
    ensures Registered(es) == m
  {
    hide Registered, Sorted;
    var m' := Registered(es);
    assert forall r :: r in m ==> Entry(r, m[r]).rule in m' && m'[r] == m[r];
    assert forall r :: r in m' ==> Entry(r, m'[r]).rule in m;
  }

  lemma SortedInsert(es: seq<Entry>, k: nat, e: Entry)
    requires Sorted(es) && k <= |es|
    requires forall i :: 0 <= i < k ==> Cmp(es[i].rule, e.rule) == Less
    requires forall i :: k <= i < |es| ==> Cmp(e.rule, es[i].rule) == Less
    ensures Sorted(es[..k] + [e] + es[k..])
    ensures forall x :: x in es ==> x.rule != e.rule
  {
    hide Cmp;
    CmpOrder(e.rule, e.rule);
  }

  lemma InsertSorted(es: seq<Entry>, k: nat, e: Entry)
    requires Sorted(es) && k <= |es|
    requires forall i :: 0 <= i < k ==> Cmp(es[i].rule, e.rule) == Less
    requires forall i :: k <= i < |es| ==> Cmp(e.rule, es[i].rule) == Less
    ensures Sorted(es[..k] + [e] + es[k..])
    ensures e.rule !in Registered(es)
    ensures Registered(es[..k] + [e] + es[k..]) == Registered(es)[e.rule := e.queue]
  {
    hide Cmp, Sorted, Registered;
    var es' := es[..k] + [e] + es[k..];
    SortedInsert(es, k, e);
    assert es == es[..k] + es[k..];
    assert forall x :: x in es' <==> x in es || x == e;
    var m := Registered(es);
    RegisteredIs(es', m[e.rule := e.queue]);
  }

  lemma RemoveSorted(es: seq<Entry>, k: nat)
    requires Sorted(es) && k < |es|
    ensures Sorted(es[..k] + es[k + 1..])
    ensures Registered(es[..k] + es[k + 1..]) == Registered(es) - {es[k].rule}
  {
    hide Cmp, Registered;
    var es' := es[..k] + es[k + 1..];
    assert Sorted(es');
    SortedDistinct(es);
    hide Sorted;
    assert forall x :: x in es' ==> x in es && x.rule != es[k].rule;
    assert es == es[..k] + [es[k]] + es[k + 1..];
    assert forall x :: x in es <==> x == es[k] || x in es';
    RegisteredIs(es', Registered(es) - {es[k].rule});
  }

  lemma QueueSorted(es: seq<Entry>, k: nat, m: Msg)
    requires Sorted(es) && k < |es|
    ensures var es' := es[k := Entry(es[k].rule, es[k].queue + [m])];
      Sorted(es') && Registered(es') == Registered(es)[es[k].rule := es[k].queue + [m]]
  {
    hide Cmp, Registered;
    var es' := es[k := Entry(es[k].rule, es[k].queue + [m])];
    assert Sorted(es');
    SortedDistinct(es);
    hide Sorted;
    assert es'[k] in es';
    forall x | x in es && x != es[k] ensures x in es' {
      var i :| 0 <= i < |es| && es[i] == x;
      assert es'[i] == x;
    }
    forall x | x in es' ensures x == es'[k] || (x in es && x.rule != es[k].rule) {
      var i :| 0 <= i < |es'| && es'[i] == x;
    }
    RegisteredIs(es', Registered(es)[es[k].rule := es[k].queue + [m]]);
  }

  /** The least of the rules that match. */
  predicate IsLeastMatching(rules: set<MatchRule>, m: Msg, r: MatchRule) {
    r in rules && Matches(r, m) && forall q :: q in rules && Matches(q, m) && q != r ==> Cmp(r, q) == Less
  }

  /** The first rule that matches is the least. */
  lemma FirstIsLeast(es: seq<Entry>, k: nat, m: Msg)
    requires Sorted(es) && k < |es| && Matches(es[k].rule, m)
    requires forall j :: 0 <= j < k ==> !Matches(es[j].rule, m)
    ensures IsLeastMatching(Registered(es).Keys, m, es[k].rule)
  {
    hide Cmp, Matches, Registered;
    var rs := Registered(es);
    assert es[k] in es;
    forall q | q in rs && Matches(q, m) && q != es[k].rule ensures Cmp(es[k].rule, q) == Less {
      var j :| 0 <= j < |es| && es[j] == Entry(q, rs[q]);
    }
  }

  // ----- What the connection does to it -----

  /** The local step of `insert_sig_match`. */
  function AfterInsert(es: seq<Entry>, r: MatchRule): (seq<Entry>, bool) {
    var (found, i) := Probe(es, r, 0, |es|);
    if found then (es, false) else (es[..i] + [Entry(r, [])] + es[i..], true)
  }

  /** The local step of `remove_sig_match`, and the one that undoes an insertion the bus refused. */
  function AfterRemove(es: seq<Entry>, r: MatchRule): (seq<Entry>, bool) {
    var (found, i) := Probe(es, r, 0, |es|);
    if found then (es[..i] + es[i + 1..], true) else (es, false)
  }

  /** `queue_sig`. */
  function AfterSig(es: seq<Entry>, m: Msg): seq<Entry> {
    if es == [] then []
    else if Matches(es[0].rule, m) then [Entry(es[0].rule, es[0].queue + [m])] + es[1..]
    else [es[0]] + AfterSig(es[1..], m)
  }

  /** On the registered rules as a map an insertion adds a rule, unless it is there. */
  lemma InsertRefines(es: seq<Entry>, r: MatchRule)
    requires Sorted(es) && Comparable(es, r)
    ensures var (es', ok) := AfterInsert(es, r);
      && Sorted(es') && ok == (r !in Registered(es))
      && Registered(es') == if ok then Registered(es)[r := []] else Registered(es)
  {
    hide Cmp, Comparable, Sorted, Registered, Probe;
    ProbeFinds(es, r, 0, |es|);
    var (found, i) := Probe(es, r, 0, |es|);
    if found { assert es[i] in es; } else { InsertSorted(es, i, Entry(r, [])); }
  }

  /** And a removal takes it out, if it is there. */
  lemma RemoveRefines(es: seq<Entry>, r: MatchRule)
    requires Sorted(es) && Comparable(es, r)
    ensures var (es', ok) := AfterRemove(es, r);
      Sorted(es') && ok == (r in Registered(es)) && Registered(es') == Registered(es) - {r}
  {
    hide Cmp, Comparable, Sorted, Registered, Probe;
    ProbeFinds(es, r, 0, |es|);
    var (found, i) := Probe(es, r, 0, |es|);
    if found {
      assert es[i] in es;
      RemoveSorted(es, i);
    } else {
      InsertSorted(es, i, Entry(r, []));
    }
  }

  /** A signal goes to the queue of the least rule that matches it, and to none if there is none. */
  ghost predicate Delivered(rs: map<MatchRule, seq<Msg>>, m: Msg, rs': map<MatchRule, seq<Msg>>) {
    if forall r :: r in rs ==> !Matches(r, m) then rs' == rs
    else exists l :: IsLeastMatching(rs.Keys, m, l) && rs' == rs[l := rs[l] + [m]]
  }

  lemma {:induction false} SigAt(es: seq<Entry>, m: Msg) returns (k: nat)
    ensures k <= |es| && forall j :: 0 <= j < k ==> !Matches(es[j].rule, m)
    ensures k == |es| ==> AfterSig(es, m) == es
    ensures k < |es| ==> Matches(es[k].rule, m) && AfterSig(es, m) == es[k := Entry(es[k].rule, es[k].queue + [m])]
  {
    hide Matches;
    if es == [] || Matches(es[0].rule, m) {
      k := 0;
    } else {
      var i := SigAt(es[1..], m);
      k := i + 1;
    }
  }

  predicate FirstTaker(es: seq<Entry>, m: Msg, k: int) {
    0 <= k < |es| && Accepts(es[k].rule, m) && forall j :: 0 <= j < k ==> !Accepts(es[j].rule, m)
  }

  /** The signal is put at the end of the queue of the first rule that takes it, and of no other. */
  ghost predicate GoesToFirst(es: seq<Entry>, m: Msg, es': seq<Entry>) {
    if forall i :: 0 <= i < |es| ==> !Accepts(es[i].rule, m) then es' == es
    else exists k :: FirstTaker(es, m, k) && es' == es[k := Entry(es[k].rule, es[k].queue + [m])]
  }

  lemma FirstAccepting(es: seq<Entry>, m: Msg)
    requires forall e :: e in es ==> CanonicalIn(e.rule, m)
    ensures GoesToFirst(es, m, AfterSig(es, m))
  {
    hide Matches, AfterSig, Accepts, CanonicalIn;
    var k := SigAt(es, m);
    forall i | 0 <= i < |es| ensures Matches(es[i].rule, m) <==> Accepts(es[i].rule, m) {
      assert es[i] in es;
      MatchesIff(es[i].rule, m);
    }
    assert k < |es| ==> FirstTaker(es, m, k);
  }

  lemma SignalsOnly(es: seq<Entry>, m: Msg)
    ensures m.typ != Signal ==> AfterSig(es, m) == es
  {
    hide AfterSig;
    var k := SigAt(es, m);
  }

  lemma SigRefines(es: seq<Entry>, m: Msg)
    requires Sorted(es)
    ensures Sorted(AfterSig(es, m)) && Delivered(Registered(es), m, Registered(AfterSig(es, m)))
  {
    hide Cmp, Matches, Registered, Sorted, IsLeastMatching, AfterSig;
    var k := SigAt(es, m);
    var rs := Registered(es);
    if k < |es| {
      assert es[k] in es;
      FirstIsLeast(es, k, m);
      QueueSorted(es, k, m);
    } else {
      assert forall r :: r in rs ==> Entry(r, rs[r]) in es;
    }
  }

  /** `sig_matches` of the connection. */
  class SigMatches {
    var entries: seq<Entry>

    constructor ()
      ensures entries == []
    {
      entries := [];
    }

    method Insert(r: MatchRule) returns (ok: bool)
      requires OnePath(r) // the source asserts it
      modifies this
      ensures (entries, ok) == AfterInsert(old(entries), r)
    {
      var found, i := Search(entries, r);
      if found { return false; }
      entries := entries[..i] + [Entry(r, [])] + entries[i..];
      return true;
    }

    method Remove(r: MatchRule) returns (ok: bool)
      modifies this
      ensures (entries, ok) == AfterRemove(old(entries), r)
    {
      var found, i := Search(entries, r);
      if !found { return false; }
      entries := entries[..i] + entries[i + 1..];
      return true;
    }

    method QueueSig(m: Msg)
      modifies this
      ensures entries == AfterSig(old(entries), m)
      ensures m.typ != Signal ==> entries == old(entries)
      ensures (forall e :: e in old(entries) ==> CanonicalIn(e.rule, m)) ==> GoesToFirst(old(entries), m, entries)
    {
      hide Matches, AfterSig;
      SignalsOnly(entries, m);
      if forall e :: e in entries ==> CanonicalIn(e.rule, m) { FirstAccepting(entries, m); }
      ghost var k := SigAt(entries, m);
      var i := 0;
      while i < |entries|
        invariant i <= k && entries == old(entries)
      {
        if Matches(entries[i].rule, m) {
          entries := entries[i := Entry(entries[i].rule, entries[i].queue + [m])];
          return;
        }
        i := i + 1;
      }
    }
  }

  // ----- Whole runs -----

  /** What is done to the list under its lock. */
  datatype Op = InsertOp(rule: MatchRule) | RemoveOp(rule: MatchRule) | SignalOp(msg: Msg)

  function ListAfter(ops: seq<Op>): seq<Entry> {
    if ops == [] then []
    else
      var es := ListAfter(ops[..|ops| - 1]);
      match ops[|ops| - 1]
      case InsertOp(r) => AfterInsert(es, r).0
      case RemoveOp(r) => AfterRemove(es, r).0
      case SignalOp(m) => AfterSig(es, m)
  }

  /** The run uses rules with these namespaces. */
  ghost predicate Over(ops: seq<Op>, ns: iset<Option<string>>) {
    forall i :: 0 <= i < |ops| && !ops[i].SignalOp? ==> OnePath(ops[i].rule) && ops[i].rule.namespace in ns
  }

  ghost predicate InSpaces(es: seq<Entry>, ns: iset<Option<string>>) {
    forall i :: 0 <= i < |es| ==> es[i].rule.namespace in ns
  }

  /** What one operation does to the rules as a map. */
  ghost predicate MapStep(rs: map<MatchRule, seq<Msg>>, op: Op, rs': map<MatchRule, seq<Msg>>) {
    match op
    case InsertOp(r) => rs' == if r in rs then rs else rs[r := []]
    case RemoveOp(r) => rs' == rs - {r}
    case SignalOp(m) => Delivered(rs, m, rs')
  }

  lemma InSpacesComparable(es: seq<Entry>, r: MatchRule, ns: iset<Option<string>>)
    requires NoFork(ns) && InSpaces(es, ns) && r.namespace in ns
    ensures Comparable(es, r)
  {
    hide Fork;
  }

  lemma {:induction false} SigKeepsRules(es: seq<Entry>, m: Msg)
    ensures |AfterSig(es, m)| == |es| && forall i :: 0 <= i < |es| ==> AfterSig(es, m)[i].rule == es[i].rule
  {
    var k := SigAt(es, m);
  }

  /** Over namespaces without a fork every run keeps the list sorted, and each operation is one on the map. */
  lemma {:induction false} RunStaysSorted(ops: seq<Op>, ns: iset<Option<string>>)
    requires NoFork(ns) && Over(ops, ns)
    ensures Sorted(ListAfter(ops)) && InSpaces(ListAfter(ops), ns)
    ensures ops != [] ==>
      var before := ListAfter(ops[..|ops| - 1]);
      Sorted(before) && MapStep(Registered(before), ops[|ops| - 1], Registered(ListAfter(ops)))
  {
    hide Cmp, NoFork, Sorted, Registered, Matches, Probe, AfterSig, Comparable;
    if ops == [] {
      EmptySorted();
    } else {
      var k := |ops| - 1;
      RunStaysSorted(ops[..k], ns);
      var es := ListAfter(ops[..k]);
      match ops[k]
      case InsertOp(r) =>
        InSpacesComparable(es, r, ns);
        InsertRefines(es, r);
      case RemoveOp(r) =>
        InSpacesComparable(es, r, ns);
        RemoveRefines(es, r);
      case SignalOp(m) =>
        SigRefines(es, m);
        SigKeepsRules(es, m);
    }
  }

  lemma EmptySorted()
    ensures Sorted([])
  {
  }

  /** No rule is in the list twice. */
  predicate Distinct(es: seq<Entry>) {
    forall i, j :: 0 <= i < j < |es| ==> es[i].rule != es[j].rule
  }

  lemma RunInsert(ops: seq<Op>, r: MatchRule)
    ensures ListAfter(ops + [InsertOp(r)]) == AfterInsert(ListAfter(ops), r).0
  {
    hide Cmp, Probe;
    assert (ops + [InsertOp(r)])[..|ops|] == ops;
  }

  /** Over a fork, four rules are inserted so that the first is no longer found, and inserted again. */
  lemma ForkDuplicates(x: Option<string>, y: Option<string>, z: Option<string>) returns (ops: seq<Op>)
    requires Fork(x, y, z)
    ensures Over(ops, iset{x, y, z}) && !Distinct(ListAfter(ops))
  {
    hide Cmp, Components, Probe, ListAfter, Distinct, Fork;
    var a, b, c := ForkCycle(x, y, z);
    var d := MatchRule(None, None, z, None, None);
    ForkShape(x, y, z);
    ForkLast(b, c, d);
    Probes(a, b, c, d);
    InsertFour(a, b, c, d);
    var four := [Entry(a, []), Entry(b, []), Entry(c, []), Entry(d, [])];
    InsertAgain(four, a);
    RunInsert([InsertOp(a), InsertOp(b), InsertOp(c), InsertOp(d)], a);
    ops := [InsertOp(a), InsertOp(b), InsertOp(c), InsertOp(d)] + [InsertOp(a)];
  }

  lemma ForkShape(x: Option<string>, y: Option<string>, z: Option<string>)
    requires Fork(x, y, z)
    ensures y.Some? && z.Some? && !Nested(y.value, z.value) && x != z
  {
    hide Components;
  }

  lemma InsertAgain(es: seq<Entry>, r: MatchRule)
    requires es != [] && es[0].rule == r && !Probe(es, r, 0, |es|).0 && Probe(es, r, 0, |es|).1 > 0
    ensures !Distinct(AfterInsert(es, r).0)
  {
    hide Probe;
    var i := Probe(es, r, 0, |es|).1;
    assert AfterInsert(es, r).0[0].rule == AfterInsert(es, r).0[i].rule;
  }

  lemma InsertFour(a: MatchRule, b: MatchRule, c: MatchRule, d: MatchRule)
    requires Probe([], a, 0, 0) == (false, 0)
    requires Probe([Entry(a, [])], b, 0, 1) == (false, 1)
    requires Probe([Entry(a, []), Entry(b, [])], c, 0, 2) == (false, 2)
    requires Probe([Entry(a, []), Entry(b, []), Entry(c, [])], d, 0, 3) == (false, 3)
    ensures ListAfter([InsertOp(a), InsertOp(b), InsertOp(c), InsertOp(d)]) == [Entry(a, []), Entry(b, []), Entry(c, []), Entry(d, [])]
  {
    hide Cmp, Probe, ListAfter;
    NoOps();
    AppendLast([], [], a);
    AppendLast([InsertOp(a)], [Entry(a, [])], b);
    AppendLast([InsertOp(a), InsertOp(b)], [Entry(a, []), Entry(b, [])], c);
    AppendLast([InsertOp(a), InsertOp(b), InsertOp(c)], [Entry(a, []), Entry(b, []), Entry(c, [])], d);
    assert [] + [InsertOp(a)] == [InsertOp(a)] && [InsertOp(a)] + [InsertOp(b)] == [InsertOp(a), InsertOp(b)];
    assert [InsertOp(a), InsertOp(b)] + [InsertOp(c)] == [InsertOp(a), InsertOp(b), InsertOp(c)];
    assert [InsertOp(a), InsertOp(b), InsertOp(c)] + [InsertOp(d)] == [InsertOp(a), InsertOp(b), InsertOp(c), InsertOp(d)];
  }

  /** A rule that goes to the end of the list. */
  lemma AppendLast(ops: seq<Op>, es: seq<Entry>, r: MatchRule)
    ensures ListAfter(ops) == es && Probe(es, r, 0, |es|) == (false, |es|) ==> ListAfter(ops + [InsertOp(r)]) == es + [Entry(r, [])]
  {
    hide Probe, ListAfter;
    RunInsert(ops, r);
    assert es[..|es|] + [Entry(r, [])] + es[|es|..] == es + [Entry(r, [])];
  }

  lemma Probes(a: MatchRule, b: MatchRule, c: MatchRule, d: MatchRule)
    requires Cmp(a, b) == Less && Cmp(b, c) == Less && Cmp(c, a) == Less && Cmp(b, d) == Less && Cmp(c, d) == Less && d != a
    ensures Probe([], a, 0, 0) == (false, 0)
    ensures Probe([Entry(a, [])], b, 0, 1) == (false, 1)
    ensures Probe([Entry(a, []), Entry(b, [])], c, 0, 2) == (false, 2)
    ensures Probe([Entry(a, []), Entry(b, []), Entry(c, [])], d, 0, 3) == (false, 3)
    ensures var p := Probe([Entry(a, []), Entry(b, []), Entry(c, []), Entry(d, [])], a, 0, 4); !p.0 && p.1 >= 3
  {
    hide Cmp, Probe;
    var one, two := [Entry(a, [])], [Entry(a, []), Entry(b, [])];
    var three := [Entry(a, []), Entry(b, []), Entry(c, [])];
    var four := [Entry(a, []), Entry(b, []), Entry(c, []), Entry(d, [])];
    ProbeStep([], a, 0, 0);
    ProbeStep(one, b, 0, 1);
    ProbeStep(one, b, 1, 1);
    ProbeStep(two, c, 0, 2);
    ProbeStep(two, c, 2, 2);
    ProbeStep(three, d, 0, 3);
    ProbeStep(three, d, 2, 3);
    ProbeStep(three, d, 3, 3);
    ProbeStep(four, a, 0, 4);
    ProbeStep(four, a, 3, 4);
    ProbeStep(four, a, 3, 3);
    ProbeStep(four, a, 4, 4);
    CmpOrder(d, a);
  }

  lemma ProbeStep(es: seq<Entry>, r: MatchRule, left: nat, right: nat)
    requires left <= right <= |es|
    ensures Probe(es, r, left, right) ==
      if left == right then (false, left)
      else
        var mid := left + (right - left) / 2;
        if Cmp(es[mid].rule, r) == Equal then (true, mid)
        else if Cmp(es[mid].rule, r) == Less then Probe(es, r, mid + 1, right)
        else Probe(es, r, left, mid)
  {
    hide Cmp;
  }

  lemma NoOps()
    ensures ListAfter([]) == []
  {
  }

  lemma ForkLast(b: MatchRule, c: MatchRule, d: MatchRule)
    requires b == MatchRule(None, None, b.namespace, Some("i"), Some("m")) && c == MatchRule(None, None, c.namespace, Some("i"), None)
    requires d == MatchRule(None, None, c.namespace, None, None)
    requires b.namespace.Some? && c.namespace.Some? && !Nested(b.namespace.value, c.namespace.value)
    ensures Cmp(b, d) == Less && Cmp(c, d) == Less
  {
    hide Components;
  }

  /**
   The list works as a set of rules in every run over these namespaces exactly if no namespace has one inside it and
   another one beside it.
   */
  lemma RunsKeepSetIff(ns: iset<Option<string>>)
    ensures NoFork(ns) <==> forall ops :: Over(ops, ns) ==> Distinct(ListAfter(ops))
  {
    hide ListAfter, Fork;
    if NoFork(ns) {
      forall ops | Over(ops, ns) ensures Distinct(ListAfter(ops)) {
        RunStaysSorted(ops, ns);
        SortedDistinct(ListAfter(ops));
      }
    } else {
      var x, y, z :| x in ns && y in ns && z in ns && Fork(x, y, z);
      var ops := ForkDuplicates(x, y, z);
      assert Over(ops, ns);
    }
  }
}
