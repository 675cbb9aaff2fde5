/** The message body under construction, src/rustbus_core/message_builder/body.rs. */
module Body {
  import opened Utils
  import opened Signature

  /** The three things a parameter is added to. */
  datatype Contents = Contents(buf: seq<byte>, sig: string, fds: seq<int>)

  datatype Marshalled = Marshalled(ok: bool, buf: seq<byte>, fds: seq<int>)

  /** A value to push: its type, and how it marshals itself behind what is there. */
  datatype Param = Param(ty: Ty, marshal: (seq<byte>, seq<int>) -> Marshalled)

  /** What the `Marshal` implementations of the `rustbus` crate promise: they only append, even when they fail. */
  ghost predicate AppendOnly(p: Param) {
    forall b: seq<byte>, f: seq<int> :: b <= p.marshal(b, f).buf && f <= p.marshal(b, f).fds
  }

  ghost predicate Pushable(p: Param) {
    WellFormed(p.ty) && AppendOnly(p)
  }

  datatype PushError = MarshalFailed | TooManyTypes | NestingTooDeep

  datatype Outcome = Done | Refused(err: PushError) | Panicked

  /** The verdict on the signature of one parameter, when `total` is the length with it. */
  function Judge(segment: string, total: nat): Outcome {
    if total > MAX_LEN then Outcome.Refused(TooManyTypes) else
    match Validate(segment)
    case Running(_, _, _) => Done
    case Failed(ArraysTooNested) => Outcome.Refused(NestingTooDeep)
    case Failed(StructsTooNested) => Outcome.Refused(NestingTooDeep)
    case Failed(_) => Panicked // the source panics on an invalid segment
    case StackPanic => Panicked
  }

  /** `push_param_core`. */
  function PushOne(c: Contents, p: Param): (Contents, Outcome) {
    var m := p.marshal(c.buf, c.fds);
    if !m.ok then (Contents(m.buf, c.sig, m.fds), Outcome.Refused(MarshalFailed))
    else
      var sig := c.sig + Print(p.ty);
      (Contents(m.buf, sig, m.fds), Judge(Print(p.ty), |sig|))
  }

  /** Parameters one after the other, up to the first that fails. */
  function PushAll(c: Contents, ps: seq<Param>): (Contents, Outcome)
    decreases |ps|
  {
    if ps == [] then (c, Done) else
    var (c', r) := PushOne(c, ps[0]);
    if r.Done? then PushAll(c', ps[1..]) else (c', r)
  }

  function Types(ps: seq<Param>): (ts: seq<Ty>)
    ensures |ts| == |ps|
  {
    seq(|ps|, i requires 0 <= i < |ps| => ps[i].ty)
  }

  /** The signature validates as a whole. */
  predicate SignatureOk(c: Contents) {
    Validate(c.sig).Running?
  }

  lemma {:induction false} Joined(a: seq<Ty>, b: seq<Ty>)
    ensures PrintAll(a + b) == PrintAll(a) + PrintAll(b)
    ensures ShallowEnough(a) && ShallowEnough(b) ==> ShallowEnough(a + b)
    ensures FitsStack(a) && FitsStack(b) ==> FitsStack(a + b)
  {
    if a == [] {
      assert a + b == b;
    } else {
      assert (a + b)[1..] == a[1..] + b;
      Joined(a[1..], b);
    }
  }

  /** Two valid signatures in a row are a valid signature, if that is not too long. */
  lemma ValidJoined(a: string, b: string)
    requires Validate(a).Running? && Validate(b).Running? && |a + b| <= MAX_LEN
    ensures Validate(a + b).Running?
  {
    hide PrintAll, Validate, ShallowEnough, FitsStack;
    var s := AcceptedIsDescribed(a);
    var t := AcceptedIsDescribed(b);
    Joined(s, t);
    assert Describes(s + t, a + b);
    ValidateIff(a + b);
  }

  /** One parameter after another keeps the signature valid, though only the new part of it is looked at. */
  lemma {:induction false} PushKeepsSignature(c: Contents, ps: seq<Param>)
    requires SignatureOk(c) && PushAll(c, ps).1.Done?
    ensures SignatureOk(PushAll(c, ps).0)
    ensures PushAll(c, ps).0.sig == c.sig + PrintAll(Types(ps))
    decreases |ps|
  {
    hide Validate, Print;
    if ps == [] {
      assert PrintAll(Types(ps)) == "";
    } else {
      var next := PushOne(c, ps[0]).0;
      var seg := Print(ps[0].ty);
      ValidJoined(c.sig, seg);
      PushKeepsSignature(next, ps[1..]);
      assert Types(ps)[1..] == Types(ps[1..]);
      assert c.sig + seg + PrintAll(Types(ps[1..])) == c.sig + (seg + PrintAll(Types(ps[1..])));
    }
  }

  lemma {:induction false} PushAppends(c: Contents, ps: seq<Param>)
    requires forall p :: p in ps ==> Pushable(p)
    ensures var c' := PushAll(c, ps).0; c.buf <= c'.buf && c.sig <= c'.sig && c.fds <= c'.fds
    decreases |ps|
  {
    hide Judge, Print, WellFormed;
    if ps != [] {
      assert Pushable(ps[0]);
      var (next, r) := PushOne(c, ps[0]);
      assert c.buf <= next.buf && c.sig <= next.sig && c.fds <= next.fds;
      if r.Done? {
        PushAppends(next, ps[1..]);
      }
    }
  }

  /**
   What a parameter's signature is judged to be. A panic is left only for a type that is too deep for the
   validator's stack; the panic on an invalid segment is never reached.
   */
  lemma JudgeType(t: Ty, total: nat)
    requires WellFormed(t) && |Print(t)| <= total
    ensures Judge(Print(t), total) == Done <==> total <= MAX_LEN && ShallowEnough([t]) && FitsStack([t])
    ensures Judge(Print(t), total) == Outcome.Refused(TooManyTypes) <==> total > MAX_LEN
    ensures Judge(Print(t), total).Panicked? ==> !FitsStack([t])
    ensures Judge(Print(t), total) == Outcome.Refused(NestingTooDeep) ==> !ShallowEnough([t])
    ensures Judge(Print(t), total) != Outcome.Refused(MarshalFailed)
  {
    hide Validate, Print, WellFormed;
    Alone(t);
    if total <= MAX_LEN {
      ValidatePrinted([t]);
    }
  }

  /** Every parameter can be marshalled behind the ones before it. */
  predicate MarshalsAll(b: seq<byte>, f: seq<int>, ps: seq<Param>)
    decreases |ps|
  {
    ps == [] || var m := ps[0].marshal(b, f); m.ok && MarshalsAll(m.buf, m.fds, ps[1..])
  }

  /**
   Exactly when a push of several values succeeds: all of them marshal, the whole signature is not too long, and
   their types are within the limits. It panics only on a type that is too deep for the validator's stack.
   */
  lemma {:induction false} PushVerdict(c: Contents, ps: seq<Param>)
    requires |c.sig| <= MAX_LEN && forall p :: p in ps ==> WellFormed(p.ty)
    ensures PushAll(c, ps).1.Done? <==>
      && MarshalsAll(c.buf, c.fds, ps)
      && |c.sig + PrintAll(Types(ps))| <= MAX_LEN
      && ShallowEnough(Types(ps)) && FitsStack(Types(ps))
    ensures PushAll(c, ps).1.Panicked? ==> !FitsStack(Types(ps))
    decreases |ps|
  {
    hide Judge, Print, PrintAll, WellFormed;
    NoTypes();
    if ps != [] {
      var t, rest := ps[0].ty, Types(ps[1..]);
      assert ps[0] in ps;
      assert Types(ps) == [t] + rest;
      Joined([t], rest);
      Deeper(t, rest);
      Alone(t);
      JudgeType(t, |c.sig + Print(t)|);
      var (next, r) := PushOne(c, ps[0]);
      if r.Done? {
        PushVerdict(next, ps[1..]);
        assert next.sig + PrintAll(rest) == c.sig + (Print(t) + PrintAll(rest));
      }
    }
  }

  /**
   The values were marshalled one behind the other: `steps` are buffer and descriptors before the first, between
   them, and after the last.
   */
  predicate OneByOne(ps: seq<Param>, steps: seq<Marshalled>, before: Contents, after: Contents) {
    && |steps| == |ps| + 1
    && steps[0].buf == before.buf && steps[0].fds == before.fds
    && steps[|ps|].buf == after.buf && steps[|ps|].fds == after.fds
    && forall i :: 0 <= i < |ps| ==> Follows(ps[i], steps[i], steps[i + 1])
  }

  predicate Follows(p: Param, before: Marshalled, after: Marshalled) {
    after == p.marshal(before.buf, before.fds) && after.ok
  }

  ghost predicate Marshals(ps: seq<Param>, before: Contents, after: Contents) {
    exists steps: seq<Marshalled> :: OneByOne(ps, steps, before, after)
  }

  lemma MarshalsNone(c: Contents)
    ensures Marshals([], c, c)
  {
    assert OneByOne([], [Marshalled(true, c.buf, c.fds)], c, c);
  }

  lemma MarshalsFirst(c: Contents, p: Param, next: Contents, ps: seq<Param>, after: Contents)
    requires Marshals(ps, next, after) && p.marshal(c.buf, c.fds) == Marshalled(true, next.buf, next.fds)
    ensures Marshals([p] + ps, c, after)
  {
    var rest: seq<Marshalled> :| OneByOne(ps, rest, next, after);
    var steps := [Marshalled(true, c.buf, c.fds), Marshalled(true, next.buf, next.fds)] + rest[1..];
    var all := [p] + ps;
    forall i | 0 <= i < |all| ensures Follows(all[i], steps[i], steps[i + 1]) {
      if i > 0 { assert Follows(ps[i - 1], rest[i - 1], rest[i]); }
    }
    assert OneByOne(all, steps, c, after);
  }

  /** After a push that succeeds every value is in the buffer, in order. */
  lemma {:induction false} PushMarshals(c: Contents, ps: seq<Param>)
    requires PushAll(c, ps).1.Done?
    ensures Marshals(ps, c, PushAll(c, ps).0)
    decreases |ps|
  {
    hide Judge, Print, Marshals;
    if ps == [] {
      MarshalsNone(c);
    } else {
      var next := PushOne(c, ps[0]).0;
      PushMarshals(next, ps[1..]);
      MarshalsFirst(c, ps[0], next, ps[1..], PushAll(c, ps).0);
      assert [ps[0]] + ps[1..] == ps;
    }
  }

  /**
   Why a push is refused: the value at `k` is the first that fails, the ones before it were pushed, giving `before`, and
   the error is that of the first test it does not pass.
   */
  ghost predicate FailsAt(c: Contents, ps: seq<Param>, k: nat, before: Contents, err: PushError)
    requires k < |ps|
  {
    var m, ty := ps[k].marshal(before.buf, before.fds), ps[k].ty;
    && Marshals(ps[..k], c, before) && before.sig == c.sig + PrintAll(Types(ps[..k]))
    && (err == if !m.ok then MarshalFailed else if |before.sig + Print(ty)| > MAX_LEN then TooManyTypes else NestingTooDeep)
    && (err.NestingTooDeep? ==> !ShallowEnough([ty]))
  }

  lemma {:induction false} PushFails(c: Contents, ps: seq<Param>) returns (k: nat, before: Contents)
    requires PushAll(c, ps).1.Refused? && forall p :: p in ps ==> WellFormed(p.ty)
    ensures k < |ps| && FailsAt(c, ps, k, before, PushAll(c, ps).1.err)
    decreases |ps|
  {
    hide Judge, Print, PrintAll, WellFormed, ShallowEnough, FitsStack, Marshals;
    var (next, r) := PushOne(c, ps[0]);
    assert ps[0] in ps;
    NoTypes();
    if !r.Done? {
      k, before := 0, c;
      assert ps[..0] == [];
      MarshalsNone(c);
      assert c.sig + PrintAll(Types(ps[..0])) == c.sig;
      assert c.sig + "" == c.sig;
      assert before.sig == c.sig + PrintAll(Types(ps[..0]));
      JudgeType(ps[0].ty, |c.sig + Print(ps[0].ty)|);
    } else {
      var j;
      j, before := PushFails(next, ps[1..]);
      k := j + 1;
      var mid := ps[1..][..j];
      assert ps[..k] == [ps[0]] + mid && ps[1..][j] == ps[k];
      MarshalsFirst(c, ps[0], next, mid, before);
      TypesFirst(ps[0], mid);
      assert c.sig + Print(ps[0].ty) + PrintAll(Types(mid)) == c.sig + (Print(ps[0].ty) + PrintAll(Types(mid)));
    }
  }

  lemma TypesFirst(p: Param, ps: seq<Param>)
    ensures PrintAll(Types([p] + ps)) == Print(p.ty) + PrintAll(Types(ps))
  {
    assert Types([p] + ps) == [p.ty] + Types(ps);
    assert ([p.ty] + Types(ps))[1..] == Types(ps);
  }

  /** A push of values without dictionaries in their types never panics, however deep they are. */
  lemma {:induction false} NoDictNoPanic(c: Contents, ps: seq<Param>)
    requires forall p :: p in ps ==> WellFormed(p.ty) && NoDict(p.ty)
    ensures !PushAll(c, ps).1.Panicked?
    decreases |ps|
  {
    hide Judge, Print, WellFormed, NoDict;
    if ps != [] {
      assert ps[0] in ps;
      JudgeNoDict(ps[0].ty, |c.sig + Print(ps[0].ty)|);
      var (next, r) := PushOne(c, ps[0]);
      if r.Done? { NoDictNoPanic(next, ps[1..]); }
    }
  }

  lemma JudgeNoDict(t: Ty, total: nat)
    requires WellFormed(t) && NoDict(t) && |Print(t)| <= total
    ensures !Judge(Print(t), total).Panicked?
  {
    hide Validate, Print, WellFormed, NoDict;
    Alone(t);
    NoDictNoBrace(t);
    NoBraceNoPanic(Print(t));
    if total <= MAX_LEN { ValidatePrinted([t]); }
  }

  lemma NoTypes()
    ensures Types([]) == [] && PrintAll([]) == "" && ShallowEnough([]) && FitsStack([])
  {
  }

  lemma Deeper(t: Ty, rest: seq<Ty>)
    ensures ShallowEnough([t] + rest) <==> ShallowEnough([t]) && ShallowEnough(rest)
    ensures FitsStack([t] + rest) <==> FitsStack([t]) && FitsStack(rest)
  {
    hide DepthOf;
    assert ([t] + rest)[1..] == rest;
    Alone(t);
  }

  class MessageBody {
    const bo: ByteOrder
    var buf: seq<byte>
    var sig: string
    var rawFds: seq<int>

    constructor (bo: ByteOrder)
      ensures Valid() && this.bo == bo && Now() == Contents([], "", [])
    {
      this.bo := bo;
      buf, sig, rawFds := [], "", [];
      new;
      EmptyIsValid();
    }

    /** The whole signature is valid. */
    predicate Valid()
      reads this
    {
      SignatureOk(Now())
    }

    function Now(): Contents
      reads this
    {
      Contents(buf, sig, rawFds)
    }

    method PushCore(p: Param) returns (r: Outcome)
      modifies this
      ensures (Now(), r) == PushOne(old(Now()), p)
    {
      var m := p.marshal(buf, rawFds);
      buf, rawFds := m.buf, m.fds;
      if !m.ok {
        return Outcome.Refused(MarshalFailed);
      }
      var preLen := |sig|;
      sig := sig + Print(p.ty);
      assert sig[preLen..] == Print(p.ty);
      if |sig| > MAX_LEN {
        return Outcome.Refused(TooManyTypes);
      }
      var v := ValidateSigStr(sig[preLen..]);
      if v.Running? {
        return Done;
      }
      return if v == Failed(ArraysTooNested) || v == Failed(StructsTooNested) then Outcome.Refused(NestingTooDeep) else Panicked;
    }

    /**
     `push_params`, and `push_param` to `push_param5` for one to five values: all are pushed, or none. A failure
     takes buffer, signature and descriptors back to what they were.
     */
    method PushParams(ps: seq<Param>) returns (r: Outcome)
      requires Valid() && forall p :: p in ps ==> Pushable(p)
      modifies this
      ensures r == PushAll(old(Now()), ps).1 && (r.Done? ==> Now() == PushAll(old(Now()), ps).0)
      ensures r.Done? <==>
        && MarshalsAll(old(buf), old(rawFds), ps) && |old(sig) + PrintAll(Types(ps))| <= MAX_LEN
        && ShallowEnough(Types(ps)) && FitsStack(Types(ps))
      ensures r.Done? ==> Valid() && sig == old(sig) + PrintAll(Types(ps)) && Marshals(ps, old(Now()), Now())
      ensures r.Refused? ==> Valid() && Now() == old(Now())
      ensures r.Refused? ==> exists k: nat, before: Contents :: k < |ps| && FailsAt(old(Now()), ps, k, before, r.err)
      ensures r.Panicked? ==> !FitsStack(Types(ps))
    {
      hide Validate, PushOne, PushAll, Marshals, FailsAt, MarshalsAll, PrintAll, ShallowEnough, FitsStack;
      var fdPreCnt, bufPreLen, sigPreLen := |rawFds|, |buf|, |sig|;
      ghost var before := Now();
      PushAppends(before, ps);
      ShortSignature(before);
      PushVerdict(before, ps);
      r := PushEach(ps);
      if r.Done? {
        PushKeepsSignature(before, ps);
        PushMarshals(before, ps);
      }
      if r.Refused? {
        ghost var k, start := PushFails(before, ps);
        rawFds, buf, sig := rawFds[..fdPreCnt], buf[..bufPreLen], sig[..sigPreLen];
        assert Now() == before;
      }
    }

    method PushEach(ps: seq<Param>) returns (r: Outcome)
      modifies this
      ensures (Now(), r) == PushAll(old(Now()), ps)
    {
      hide PushOne;
      var i := 0;
      while i < |ps|
        invariant 0 <= i <= |ps|
        invariant PushAll(Now(), ps[i..]) == PushAll(old(Now()), ps)
      {
        assert ps[i..][1..] == ps[i + 1..];
        r := PushCore(ps[i]);
        if !r.Done? { return; }
        i := i + 1;
      }
      return Done;
    }

    /** `push_variant`: whatever the value is, the signature only says that it is a variant. */
    method PushVariant(p: Param) returns (r: Outcome)
      requires Valid() && AppendOnly(p)
      modifies this
      ensures r.Done? <==> p.marshal(old(buf), old(rawFds)).ok && |old(sig)| < MAX_LEN
      ensures r.Done? ==> Valid() && sig == old(sig) + "v"
      ensures r.Done? ==> buf == p.marshal(old(buf), old(rawFds)).buf && rawFds == p.marshal(old(buf), old(rawFds)).fds
      ensures !r.Done? ==> Valid() && Now() == old(Now())
      ensures !r.Done? ==> r == Outcome.Refused(if p.marshal(old(buf), old(rawFds)).ok then TooManyTypes else MarshalFailed)
    {
      hide Validate;
      ghost var before := Now();
      var fdPreCnt, bufPreLen, sigPreLen := |rawFds|, |buf|, |sig|;
      var m := p.marshal(buf, rawFds);
      buf, rawFds := m.buf, m.fds;
      if m.ok {
        sig := sig + "v";
        if |sig| <= MAX_LEN {
          VariantIsValid();
          ValidJoined(before.sig, "v");
          return Done;
        }
        r := Outcome.Refused(TooManyTypes);
      } else {
        r := Outcome.Refused(MarshalFailed);
      }
      rawFds, buf, sig := rawFds[..fdPreCnt], buf[..bufPreLen], sig[..sigPreLen];
      assert Now() == before;
    }

    /** Contrary to its documentation this gives the body of a new message only if there were no descriptors. */
    method Reset()
      modifies this
      ensures Valid() && sig == "" && buf == [] && rawFds == old(rawFds)
      ensures Now() == Contents([], "", []) <==> old(rawFds) == []
    {
      sig, buf := "", [];
      EmptyIsValid();
    }
  }

  lemma ShortSignature(c: Contents)
    requires SignatureOk(c)
    ensures |c.sig| <= MAX_LEN
  {
  }

  lemma EmptyIsValid()
    ensures Validate("").Running?
  {
  }

  lemma VariantIsValid()
    ensures Validate("v").Running?
  {
    assert Step(START, 'v') == START;
    assert "v"[1..] == "";
  }
}
