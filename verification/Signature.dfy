/** Type signatures and the automaton that validates them (src/rustbus_core/message_builder/body.rs). */
module Signature {
  import opened Utils


  /**
   A single complete type. Dict entries occur only as array elements, so that an array of dict entries is one
   constructor (section "Type System" of the D-Bus Specification).
   */
  datatype Ty =
    | Basic(code: char)
    | Variant
    | Arr(elem: Ty)
    | Dict(key: char, val: Ty)
    | Struct(fields: seq<Ty>)

  predicate BasicCode(c: char) {
    c in ['y', 'b', 'n', 'q', 'i', 'u', 'x', 't', 'd', 's', 'o', 'g', 'h']
  }

  /** Keys are basic, and no structure is empty. */
  predicate WellFormed(t: Ty) {
    match t
    case Basic(c) => BasicCode(c)
    case Variant => true
    case Arr(e) => WellFormed(e)
    case Dict(k, v) => BasicCode(k) && WellFormed(v)
    case Struct(fs) => fs != [] && forall f :: f in fs ==> WellFormed(f)
  }

  function Print(t: Ty): string {
    match t
    case Basic(c) => [c]
    case Variant => "v"
    case Arr(e) => "a" + Print(e)
    case Dict(k, v) => "a{" + [k] + Print(v) + "}"
    case Struct(fs) => "(" + PrintAll(fs) + ")"
  }

  function PrintAll(ts: seq<Ty>): string {
    if ts == [] then "" else Print(ts[0]) + PrintAll(ts[1..])
  }

  /** Nesting: of arrays, of structures, and of the validator's stack frames (a dict entry is one on its array). */
  datatype Depth = Depth(arrays: nat, structs: nat, frames: nat)

  function Max(a: nat, b: nat): nat {
    if a < b then b else a
  }

  function DepthOf(t: Ty): Depth {
    match t
    case Basic(_) => Depth(0, 0, 0)
    case Variant => Depth(0, 0, 0)
    case Arr(e) => var d := DepthOf(e); Depth(1 + d.arrays, d.structs, 1 + d.frames)
    case Dict(_, v) => var d := DepthOf(v); Depth(1 + d.arrays, d.structs, 2 + d.frames)
    case Struct(fs) => var d := DepthAll(fs); Depth(d.arrays, 1 + d.structs, 1 + d.frames)
  }

  function DepthAll(ts: seq<Ty>): Depth {
    if ts == [] then Depth(0, 0, 0) else
    var d, e := DepthOf(ts[0]), DepthAll(ts[1..]);
    Depth(Max(d.arrays, e.arrays), Max(d.structs, e.structs), Max(d.frames, e.frames))
  }

  const MAX_LEN := 255
  const MAX_NESTING := 32
  const STACK_CAPACITY := 64

  /** The nesting limits of the D-Bus Specification, section "Valid Signatures". */
  predicate ShallowEnough(ts: seq<Ty>) {
    DepthAll(ts).arrays <= MAX_NESTING && DepthAll(ts).structs <= MAX_NESTING
  }

  predicate FitsStack(ts: seq<Ty>) {
    DepthAll(ts).frames <= STACK_CAPACITY
  }

  /** `s` is a list of single complete types, printed. */
  ghost predicate Describes(ts: seq<Ty>, s: string) {
    PrintAll(ts) == s && forall t :: t in ts ==> WellFormed(t)
  }

  // ----- The automaton -----

  datatype SigErr =
    | TooLong
    | NonBaseDictKey
    | ArraysTooNested
    | StructsTooNested
    | UnexpectedClosingParenthesis
    | UnexpectedClosingBracket
    | DictEntryNotInArray
    | UnknownCharacter
    | UnclosedStruct
    | UnclosedDictEntry
    | ArrayWithNoType
    | TooManyTypesInDictEntry

  datatype Nest = ArrayNest | DictEntry(count: nat) | StructNest(nonEmpty: bool)

  /** While it runs, the validator has a stack and the two counters; it fails, or its stack overflows (a panic). */
  datatype State = Running(stack: seq<Nest>, arrays: int, structs: int) | Failed(err: SigErr) | StackPanic

  function Push(s: State, n: Nest, arrays: int, structs: int): State
    requires s.Running?
  {
    if |s.stack| >= STACK_CAPACITY then StackPanic else Running(s.stack + [n], arrays, structs)
  }

  function Top(stack: seq<Nest>): Nest
    requires stack != []
  {
    stack[|stack| - 1]
  }

  function Pop(stack: seq<Nest>): seq<Nest>
    requires stack != []
  {
    stack[..|stack| - 1]
  }

  predicate OnTop(stack: seq<Nest>, n: Nest) {
    stack != [] && Top(stack) == n
  }

  /** A single complete type ends here: it completes the arrays around it and counts for what they are in. */
  function Complete(stack: seq<Nest>, arrays: int, structs: int): State
    decreases |stack|
  {
    if stack == [] then Running(stack, arrays, structs) else
    match Top(stack)
    case ArrayNest => Complete(Pop(stack), arrays - 1, structs)
    case DictEntry(n) =>
      if n >= 2 then Failed(TooManyTypesInDictEntry) else Running(Pop(stack) + [DictEntry(n + 1)], arrays, structs)
    case StructNest(_) => Running(Pop(stack) + [StructNest(true)], arrays, structs)
  }

  function Step(s: State, c: char): State
    requires s.Running?
  {
    if c in ['v', 'a', '{', '('] && OnTop(s.stack, DictEntry(0)) then Failed(NonBaseDictKey)
    else if c == 'a' then
      if s.arrays >= MAX_NESTING then Failed(ArraysTooNested) else Push(s, ArrayNest, s.arrays + 1, s.structs)
    else if c == '(' then
      if s.structs >= MAX_NESTING then Failed(StructsTooNested) else Push(s, StructNest(false), s.arrays, s.structs + 1)
    else if c == ')' then
      if !OnTop(s.stack, StructNest(true)) then Failed(UnexpectedClosingParenthesis)
      else Complete(Pop(s.stack), s.arrays, s.structs - 1)
    else if c == '{' then
      if !OnTop(s.stack, ArrayNest) then Failed(DictEntryNotInArray) else Push(s, DictEntry(0), s.arrays, s.structs)
    else if c == '}' then
      if !OnTop(s.stack, DictEntry(2)) then Failed(UnexpectedClosingBracket)
      else Complete(Pop(s.stack), s.arrays, s.structs)
    else if c == 'v' || BasicCode(c) then Complete(s.stack, s.arrays, s.structs)
    else Failed(UnknownCharacter)
  }

  function Run(s: State, text: string): State
    decreases |text|
  {
    if text == "" || !s.Running? then s else Run(Step(s, text[0]), text[1..])
  }

  function Finish(s: State): State {
    if !s.Running? || s.stack == [] then s else
    match Top(s.stack)
    case StructNest(_) => Failed(UnclosedStruct)
    case DictEntry(_) => Failed(UnclosedDictEntry)
    case ArrayNest => Failed(ArrayWithNoType)
  }

  const START := Running([], 0, 0)

  function Validate(sig: string): State {
    if |sig| > MAX_LEN then Failed(TooLong) else Finish(Run(START, sig))
  }

  /** The end of a type, in place. */
  method CompleteType(stack0: seq<Nest>, arrays0: int, ghost structs: int) returns (stack: seq<Nest>, arrays: int, failed: bool)
    ensures Complete(stack0, arrays0, structs) == if failed then Failed(TooManyTypesInDictEntry) else Running(stack, arrays, structs)
  {
    hide Complete;
    stack, arrays, failed := stack0, arrays0, false;
    while OnTop(stack, ArrayNest)
      invariant Complete(stack0, arrays0, structs) == Complete(stack, arrays, structs)
      decreases |stack|
    {
      CompleteTop(stack, arrays, structs);
      stack, arrays := Pop(stack), arrays - 1;
    }
    CompleteTop(stack, arrays, structs);
    if stack != [] {
      match Top(stack) {
        case DictEntry(n) =>
          if n >= 2 { failed := true; return; }
          stack := Pop(stack) + [DictEntry(n + 1)];
        case StructNest(_) =>
          stack := Pop(stack) + [StructNest(true)];
        case ArrayNest =>
      }
    }
  }

  /** One character, in place; `stop` is the result if the validator stops at it. */
  method TakeChar(stack0: seq<Nest>, arrays0: int, structs0: int, c: char)
    returns (stack: seq<Nest>, arrays: int, structs: int, stop: Option<State>)
    ensures Step(Running(stack0, arrays0, structs0), c) == if stop.Some? then stop.value else Running(stack, arrays, structs)
    ensures stop.Some? ==> !stop.value.Running?
  {
    hide Complete, BasicCode;
    stack, arrays, structs, stop := stack0, arrays0, structs0, None;
    if c in ['v', 'a', '{', '('] && OnTop(stack, DictEntry(0)) {
      stop := Some(Failed(NonBaseDictKey));
    } else if c == 'a' {
      if arrays >= MAX_NESTING { stop := Some(Failed(ArraysTooNested)); return; }
      if |stack| >= STACK_CAPACITY { stop := Some(StackPanic); return; }
      stack, arrays := stack + [ArrayNest], arrays + 1;
    } else if c == '(' {
      if structs >= MAX_NESTING { stop := Some(Failed(StructsTooNested)); return; }
      if |stack| >= STACK_CAPACITY { stop := Some(StackPanic); return; }
      stack, structs := stack + [StructNest(false)], structs + 1;
    } else if c == '{' {
      if !OnTop(stack, ArrayNest) { stop := Some(Failed(DictEntryNotInArray)); return; }
      if |stack| >= STACK_CAPACITY { stop := Some(StackPanic); return; }
      stack := stack + [DictEntry(0)];
    } else {
      if c == ')' {
        if !OnTop(stack, StructNest(true)) { stop := Some(Failed(UnexpectedClosingParenthesis)); return; }
        stack, structs := Pop(stack), structs - 1;
      } else if c == '}' {
        if !OnTop(stack, DictEntry(2)) { stop := Some(Failed(UnexpectedClosingBracket)); return; }
        stack := Pop(stack);
      } else if c != 'v' && !BasicCode(c) {
        stop := Some(Failed(UnknownCharacter));
        return;
      }
      var failed;
      stack, arrays, failed := CompleteType(stack, arrays, structs);
      if failed { stop := Some(Failed(TooManyTypesInDictEntry)); }
    }
  }

  /** `validate_sig_str`: `Running` means `Ok(())`. */
  method ValidateSigStr(sig: string) returns (r: State)
    ensures r == Validate(sig)
  {
    hide Run, Step;
    if |sig| > MAX_LEN { return Failed(TooLong); }
    var stack: seq<Nest>, arrays, structs, stop := [], 0, 0, None;
    var i := 0;
    assert sig[0..] == sig;
    while i < |sig|
      invariant 0 <= i <= |sig|
      invariant Run(START, sig) == Run(Running(stack, arrays, structs), sig[i..])
    {
      RunAt(Running(stack, arrays, structs), sig, i);
      stack, arrays, structs, stop := TakeChar(stack, arrays, structs, sig[i]);
      if stop.Some? { return stop.value; }
      i := i + 1;
    }
    RunAt(Running(stack, arrays, structs), sig, i);
    return Finish(Running(stack, arrays, structs));
  }

  /** Reading the signature from a position, and from the next one. */
  lemma RunAt(s: State, sig: string, i: nat)
    requires s.Running? && i <= |sig|
    ensures i == |sig| ==> Run(s, sig[i..]) == s
    ensures i < |sig| ==> Run(s, sig[i..]) == Run(Step(s, sig[i]), sig[i + 1..])
    ensures i < |sig| && !Step(s, sig[i]).Running? ==> Run(s, sig[i..]) == Step(s, sig[i])
  {
    hide Step;
    assert i < |sig| ==> sig[i..][1..] == sig[i + 1..];
  }

  lemma CompleteTop(stack: seq<Nest>, arrays: int, structs: int)
    ensures Complete(stack, arrays, structs) ==
      if stack == [] then Running(stack, arrays, structs)
      else if Top(stack).ArrayNest? then Complete(Pop(stack), arrays - 1, structs)
      else if Top(stack).StructNest? then Running(Pop(stack) + [StructNest(true)], arrays, structs)
      else if Top(stack).count >= 2 then Failed(TooManyTypesInDictEntry)
      else Running(Pop(stack) + [DictEntry(Top(stack).count + 1)], arrays, structs)
  {
  }

  /** Which error a character ends in, by what is open before it. */
  lemma StepFaults(s: State, c: char)
    requires s.Running?
    ensures var key := OnTop(s.stack, DictEntry(0)) && c in ['v', 'a', '{', '('];
      && (Step(s, c) == Failed(NonBaseDictKey) <==> key)
      && (Step(s, c) == Failed(ArraysTooNested) <==> !key && c == 'a' && s.arrays >= MAX_NESTING)
      && (Step(s, c) == Failed(StructsTooNested) <==> !key && c == '(' && s.structs >= MAX_NESTING)
      && (Step(s, c) == Failed(UnexpectedClosingParenthesis) <==> c == ')' && !OnTop(s.stack, StructNest(true)))
      && (Step(s, c) == Failed(UnexpectedClosingBracket) <==> c == '}' && !OnTop(s.stack, DictEntry(2)))
      && (Step(s, c) == Failed(DictEntryNotInArray) <==> !key && c == '{' && !OnTop(s.stack, ArrayNest))
      && (Step(s, c) == Failed(UnknownCharacter) <==> c !in ['a', '(', ')', '{', '}', 'v'] && !BasicCode(c))
  {
    hide Complete;
    CompleteFaults(s.stack, s.arrays, s.structs);
    if s.stack != [] { CompleteFaults(Pop(s.stack), s.arrays, s.structs - 1); CompleteFaults(Pop(s.stack), s.arrays, s.structs); }
  }

  lemma {:induction false} CompleteFaults(stack: seq<Nest>, arrays: int, structs: int)
    ensures var r := Complete(stack, arrays, structs); r.Running? || r == Failed(TooManyTypesInDictEntry)
    decreases |stack|
  {
    hide Complete;
    CompleteTop(stack, arrays, structs);
    if stack != [] && Top(stack).ArrayNest? { CompleteFaults(Pop(stack), arrays - 1, structs); }
  }

  lemma {:induction false} FirstFault(s: State, text: string)
    requires s.Running?
    ensures Run(s, text).Running? || exists k :: 0 <= k < |text| && Run(s, text[..k]).Running? && Run(s, text) == Step(Run(s, text[..k]), text[k])
    decreases |text|
  {
    hide Step;
    if text != "" {
      var next := Step(s, text[0]);
      assert text[..0] == "" && Run(s, text[..0]) == s;
      if next.Running? {
        FirstFault(next, text[1..]);
        if !Run(next, text[1..]).Running? {
          var k :| 0 <= k < |text[1..]| && Run(next, text[1..][..k]).Running? && Run(next, text[1..]) == Step(Run(next, text[1..][..k]), text[1..][k]);
          assert text[..k + 1] == [text[0]] + text[1..][..k];
          RunOne(s, text[0], text[1..][..k]);
        }
      } else {
        RunStopped(next, text[1..]);
      }
    }
  }

  /** The verdict: on the length, on the first character that is refused, or on what is open at the end. */
  lemma VerdictFaults(sig: string)
    ensures Validate(sig) == Failed(TooLong) <==> |sig| > MAX_LEN
    ensures |sig| <= MAX_LEN && Run(START, sig).Running? ==>
      var stack := Run(START, sig).stack;
      && (Validate(sig) == Failed(UnclosedStruct) <==> stack != [] && Top(stack).StructNest?)
      && (Validate(sig) == Failed(UnclosedDictEntry) <==> stack != [] && Top(stack).DictEntry?)
      && (Validate(sig) == Failed(ArrayWithNoType) <==> stack != [] && Top(stack).ArrayNest?)
    ensures |sig| <= MAX_LEN && !Run(START, sig).Running? ==>
      exists k :: 0 <= k < |sig| && Run(START, sig[..k]).Running? && Validate(sig) == Step(Run(START, sig[..k]), sig[k])
  {
    hide Step, Run;
    FirstFault(START, sig);
    RunNotTooLong(START, sig);
  }

  lemma {:induction false} RunNotTooLong(s: State, text: string)
    requires s.Running?
    ensures Run(s, text) != Failed(TooLong)
    decreases |text|
  {
    hide Step;
    if text != "" {
      StepNotTooLong(s, text[0]);
      if Step(s, text[0]).Running? { RunNotTooLong(Step(s, text[0]), text[1..]); } else { RunStopped(Step(s, text[0]), text[1..]); }
    }
  }

  lemma StepNotTooLong(s: State, c: char)
    requires s.Running?
    ensures Step(s, c) != Failed(TooLong)
  {
    hide Complete;
    CompleteFaults(s.stack, s.arrays, s.structs);
    if s.stack != [] { CompleteFaults(Pop(s.stack), s.arrays, s.structs - 1); CompleteFaults(Pop(s.stack), s.arrays, s.structs); }
  }

  // ----- Every printed type list is recognised -----

  /** With `arrays`, `structs` and `frames` open around it, something of this depth stays within the limits. */
  predicate Within(d: Depth, arrays: int, structs: int, frames: int) {
    arrays + d.arrays <= MAX_NESTING && structs + d.structs <= MAX_NESTING && frames + d.frames <= STACK_CAPACITY
  }

  /** Outside the limits the validator stops, for a limit that is exceeded; for the stack's by a panic. */
  predicate Refused(s: State, d: Depth, arrays: int, structs: int, frames: int) {
    || (s == Failed(ArraysTooNested) && arrays + d.arrays > MAX_NESTING)
    || (s == Failed(StructsTooNested) && structs + d.structs > MAX_NESTING)
    || (s == StackPanic && frames + d.frames > STACK_CAPACITY)
  }

  /** A type may start here: only a basic one as the key of a dict entry. */
  predicate MayStart(stack: seq<Nest>, t: Ty) {
    OnTop(stack, DictEntry(0)) ==> t.Basic?
  }

  predicate Legal(stack: seq<Nest>, arrays: int, structs: int) {
    arrays <= MAX_NESTING && structs <= MAX_NESTING && |stack| <= STACK_CAPACITY
  }

  lemma CompleteUnfold(stack: seq<Nest>, n: Nest, arrays: int, structs: int)
    ensures Complete(stack + [n], arrays, structs) ==
      if n.ArrayNest? then Complete(stack, arrays - 1, structs)
      else if n.StructNest? then Running(stack + [StructNest(true)], arrays, structs)
      else if n.count >= 2 then Failed(TooManyTypesInDictEntry)
      else Running(stack + [DictEntry(n.count + 1)], arrays, structs)
  {
    assert Pop(stack + [n]) == stack && Top(stack + [n]) == n;
  }

  lemma Assoc(a: string, b: string, c: string)
    ensures a + (b + c) == a + b + c
  {
  }

  lemma RunOne(s: State, c: char, rest: string)
    requires s.Running?
    ensures Run(s, [c] + rest) == Run(Step(s, c), rest)
  {
    hide Step;
    assert ([c] + rest)[1..] == rest;
  }

  lemma RunStopped(s: State, text: string)
    requires !s.Running?
    ensures Run(s, text) == s
  {
  }

  /** One printed type takes the automaton from where it starts to where it is complete. */
  lemma {:induction false} RunType(t: Ty, rest: string, stack: seq<Nest>, arrays: int, structs: int)
    requires WellFormed(t) && MayStart(stack, t) && Legal(stack, arrays, structs)
    ensures var r := Run(Running(stack, arrays, structs), Print(t) + rest);
      if Within(DepthOf(t), arrays, structs, |stack|) then r == Run(Complete(stack, arrays, structs), rest)
      else Refused(r, DepthOf(t), arrays, structs, |stack|)
    decreases t, 1
  {
    var s := Running(stack, arrays, structs);
    match t
    case Basic(c) => RunOne(s, c, rest);
    case Variant => RunOne(s, 'v', rest);
    case Arr(e) =>
      RunArray(e, rest, stack, arrays, structs);
    case Dict(k, v) =>
      RunDict(k, v, rest, stack, arrays, structs);
    case Struct(fs) =>
      RunStruct(fs, rest, stack, arrays, structs);
  }

  lemma {:induction false} RunArray(e: Ty, rest: string, stack: seq<Nest>, arrays: int, structs: int)
    requires WellFormed(e) && !OnTop(stack, DictEntry(0)) && Legal(stack, arrays, structs)
    ensures var r, d := Run(Running(stack, arrays, structs), "a" + Print(e) + rest), DepthOf(Arr(e));
      if Within(d, arrays, structs, |stack|) then r == Run(Complete(stack, arrays, structs), rest) else Refused(r, d, arrays, structs, |stack|)
    decreases e, 2
  {
    hide Run;
    var s, inner := Running(stack, arrays, structs), stack + [ArrayNest];
    assert "a" + Print(e) + rest == ['a'] + (Print(e) + rest);
    RunOne(s, 'a', Print(e) + rest);
    if arrays < MAX_NESTING && |stack| < STACK_CAPACITY {
      assert Pop(inner) == stack;
      RunType(e, rest, inner, arrays + 1, structs);
    } else {
      RunStopped(Step(s, 'a'), Print(e) + rest);
    }
  }

  lemma {:induction false} RunDict(k: char, v: Ty, rest: string, stack: seq<Nest>, arrays: int, structs: int)
    requires BasicCode(k) && WellFormed(v) && !OnTop(stack, DictEntry(0)) && Legal(stack, arrays, structs)
    ensures var r, d := Run(Running(stack, arrays, structs), Print(Dict(k, v)) + rest), DepthOf(Dict(k, v));
      if Within(d, arrays, structs, |stack|) then r == Run(Complete(stack, arrays, structs), rest) else Refused(r, d, arrays, structs, |stack|)
    decreases v, 3
  {
    hide Run, Complete, DepthOf, Print;
    DictDepth(k, v);
    DictPrint(k, v, rest);
    var s, inner := Running(stack, arrays, structs), stack + [ArrayNest];
    var text := [k] + (Print(v) + ("}" + rest));
    RunOne(s, 'a', ['{'] + text);
    if arrays >= MAX_NESTING || |stack| >= STACK_CAPACITY {
      RunStopped(Step(s, 'a'), ['{'] + text);
    } else {
      RunOne(Running(inner, arrays + 1, structs), '{', text);
      if |inner| >= STACK_CAPACITY {
        RunStopped(StackPanic, text);
      } else {
        RunEntry(k, v, rest, stack, arrays, structs);
      }
    }
  }

  /** A dict entry, from behind its opening bracket. */
  lemma {:induction false} RunEntry(k: char, v: Ty, rest: string, stack: seq<Nest>, arrays: int, structs: int)
    requires BasicCode(k) && WellFormed(v) && |stack| + 2 <= STACK_CAPACITY && arrays < MAX_NESTING && structs <= MAX_NESTING
    ensures var r, d := Run(Running(stack + [ArrayNest] + [DictEntry(0)], arrays + 1, structs), [k] + (Print(v) + ("}" + rest))), DepthOf(Dict(k, v));
      if Within(d, arrays, structs, |stack|) then r == Run(Complete(stack, arrays, structs), rest) else Refused(r, d, arrays, structs, |stack|)
    decreases v, 2
  {
    hide Run, Step, Complete, Print, Within;
    var inner := stack + [ArrayNest];
    var keyed, full := inner + [DictEntry(1)], inner + [DictEntry(2)];
    RunOne(Running(inner + [DictEntry(0)], arrays + 1, structs), k, Print(v) + ("}" + rest));
    EntrySteps(stack, k, arrays, structs);
    RunType(v, "}" + rest, keyed, arrays + 1, structs);
    RunOne(Running(full, arrays + 1, structs), '}', rest);
    DictWithin(k, v, arrays, structs, |stack|);
  }

  lemma DictPrint(k: char, v: Ty, rest: string)
    ensures Print(Dict(k, v)) + rest == ['a'] + (['{'] + ([k] + (Print(v) + ("}" + rest))))
  {
  }

  lemma DictDepth(k: char, v: Ty)
    ensures var d := DepthOf(Dict(k, v)); d.arrays >= 1 && d.structs >= 0 && d.frames >= 2
  {
  }

  lemma DictWithin(k: char, v: Ty, arrays: int, structs: int, frames: int)
    ensures Within(DepthOf(Dict(k, v)), arrays, structs, frames) <==> Within(DepthOf(v), arrays + 1, structs, frames + 2)
    ensures DepthOf(Dict(k, v)).frames == DepthOf(v).frames + 2
  {
  }

  /** A dict entry takes a basic key, then any type, and then it can be closed. */
  lemma EntrySteps(stack: seq<Nest>, k: char, arrays: int, structs: int)
    requires BasicCode(k)
    ensures var inner := stack + [ArrayNest];
      && Step(Running(inner + [DictEntry(0)], arrays + 1, structs), k) == Running(inner + [DictEntry(1)], arrays + 1, structs)
      && Complete(inner + [DictEntry(1)], arrays + 1, structs) == Running(inner + [DictEntry(2)], arrays + 1, structs)
      && Step(Running(inner + [DictEntry(2)], arrays + 1, structs), '}') == Complete(stack, arrays, structs)
  {
    hide Complete;
    var inner := stack + [ArrayNest];
    CompleteUnfold(inner, DictEntry(0), arrays + 1, structs);
    CompleteUnfold(inner, DictEntry(1), arrays + 1, structs);
    CompleteUnfold(stack, ArrayNest, arrays + 1, structs);
    assert Pop(inner + [DictEntry(2)]) == inner;
  }

  lemma {:induction false} RunStruct(fs: seq<Ty>, rest: string, stack: seq<Nest>, arrays: int, structs: int)
    requires fs != [] && (forall f :: f in fs ==> WellFormed(f)) && !OnTop(stack, DictEntry(0)) && Legal(stack, arrays, structs)
    ensures var r, d := Run(Running(stack, arrays, structs), Print(Struct(fs)) + rest), DepthOf(Struct(fs));
      if Within(d, arrays, structs, |stack|) then r == Run(Complete(stack, arrays, structs), rest) else Refused(r, d, arrays, structs, |stack|)
    decreases fs, 2
  {
    hide Run;
    var s, open, full := Running(stack, arrays, structs), stack + [StructNest(false)], stack + [StructNest(true)];
    assert Pop(open) == Pop(full) == stack;
    var text := PrintAll(fs) + (")" + rest);
    assert Print(Struct(fs)) + rest == ['('] + text;
    RunOne(s, '(', text);
    if structs >= MAX_NESTING || |stack| >= STACK_CAPACITY {
      RunStopped(Step(s, '('), text);
    } else {
      RunTypes(fs, ")" + rest, open, arrays, structs + 1);
      RunOne(Running(full, arrays, structs + 1), ')', rest);
    }
  }

  /** A position that takes any number of types: the top level, or inside a structure. */
  predicate TakesTypes(stack: seq<Nest>) {
    stack == [] || Top(stack).StructNest?
  }

  /** The stack after `ts` were read there. */
  function Marked(stack: seq<Nest>, ts: seq<Ty>): seq<Nest> {
    if stack == [] || ts == [] then stack else Pop(stack) + [StructNest(true)]
  }

  lemma {:induction false} RunTypes(ts: seq<Ty>, rest: string, stack: seq<Nest>, arrays: int, structs: int)
    requires TakesTypes(stack) && forall t :: t in ts ==> WellFormed(t)
    requires Legal(stack, arrays, structs)
    ensures var r := Run(Running(stack, arrays, structs), PrintAll(ts) + rest);
      if Within(DepthAll(ts), arrays, structs, |stack|) then r == Run(Running(Marked(stack, ts), arrays, structs), rest)
      else Refused(r, DepthAll(ts), arrays, structs, |stack|)
    decreases ts, 1
  {
    hide Run;
    if ts == [] {
      assert PrintAll(ts) + rest == rest;
    } else {
      assert PrintAll(ts) + rest == Print(ts[0]) + (PrintAll(ts[1..]) + rest);
      RunType(ts[0], PrintAll(ts[1..]) + rest, stack, arrays, structs);
      var next := Marked(stack, ts);
      if Within(DepthOf(ts[0]), arrays, structs, |stack|) {
        assert Complete(stack, arrays, structs) == Running(next, arrays, structs);
        RunTypes(ts[1..], rest, next, arrays, structs);
      }
    }
  }

  // ----- Everything recognised is a printed type list -----

  /** What is open while reading: the types read so far in an array (none), a dict entry or a structure. */
  datatype Open = OpenArray | OpenDict(parts: seq<Ty>) | OpenStruct(fields: seq<Ty>)

  function NestOf(o: Open): Nest {
    match o
    case OpenArray => ArrayNest
    case OpenDict(parts) => DictEntry(|parts|)
    case OpenStruct(fs) => StructNest(fs != [])
  }

  function Stack(opens: seq<Open>): (s: seq<Nest>)
    ensures |s| == |opens|
  {
    if opens == [] then [] else Stack(Below(opens)) + [NestOf(Last(opens))]
  }

  function Last(opens: seq<Open>): Open
    requires opens != []
  {
    opens[|opens| - 1]
  }

  function Below(opens: seq<Open>): seq<Open>
    requires opens != []
  {
    opens[..|opens| - 1]
  }

  function Arrays(opens: seq<Open>): nat {
    if opens == [] then 0 else Arrays(Below(opens)) + if Last(opens).OpenArray? then 1 else 0
  }

  function Structs(opens: seq<Open>): nat {
    if opens == [] then 0 else Structs(Below(opens)) + if Last(opens).OpenStruct? then 1 else 0
  }

  /** The text read so far. */
  function Text(base: seq<Ty>, opens: seq<Open>): string {
    if opens == [] then PrintAll(base) else
    Text(base, Below(opens)) + TextOf(Last(opens))
  }

  function TextOf(o: Open): string {
    match o
    case OpenArray => "a"
    case OpenDict(parts) => "{" + PrintAll(parts)
    case OpenStruct(fs) => "(" + PrintAll(fs)
  }

  function Contents(o: Open): seq<Ty> {
    match o
    case OpenArray => []
    case OpenDict(parts) => parts
    case OpenStruct(fs) => fs
  }

  ghost predicate ContentsOk(ts: seq<Ty>, arrays: nat, structs: nat, frames: nat) {
    (forall t :: t in ts ==> WellFormed(t)) && Within(DepthAll(ts), arrays, structs, frames)
  }

  /** A dict entry whose key is still to come. */
  predicate AwaitsKey(opens: seq<Open>) {
    opens != [] && Last(opens) == OpenDict([])
  }

  /**
   What the automaton keeps: its counters are the open arrays and structures, every dict entry sits on an array
   and starts with a basic key, and what was read stays within the limits where it stands.
   */
  ghost predicate Inv(base: seq<Ty>, opens: seq<Open>) {
    if opens == [] then ContentsOk(base, 0, 0, 0) else
    var o, below := Last(opens), Below(opens);
    && Inv(base, below)
    && ContentsOk(Contents(o), Arrays(opens), Structs(opens), |opens|)
    && !AwaitsKey(below)
    && (o.OpenDict? ==>
          && below != [] && Last(below).OpenArray?
          && |o.parts| <= 2
          && (o.parts != [] ==> o.parts[0].Basic?))
  }

  datatype Built = Built(base: seq<Ty>, opens: seq<Open>)

  /** A complete type is added to what is open, completing arrays on the way. */
  function Add(base: seq<Ty>, opens: seq<Open>, t: Ty): Built
    decreases |opens|
  {
    if opens == [] then Built(base + [t], []) else
    match Last(opens)
    case OpenArray => Add(base, Below(opens), Arr(t))
    case OpenDict(parts) => Built(base, Below(opens) + [OpenDict(parts + [t])])
    case OpenStruct(fs) => Built(base, Below(opens) + [OpenStruct(fs + [t])])
  }

  lemma {:induction false} Snoc(ts: seq<Ty>, t: Ty)
    ensures PrintAll(ts + [t]) == PrintAll(ts) + Print(t)
    ensures var d, e := DepthAll(ts), DepthOf(t);
      DepthAll(ts + [t]) == Depth(Max(d.arrays, e.arrays), Max(d.structs, e.structs), Max(d.frames, e.frames))
  {
    if ts == [] {
      assert ts + [t] == [t];
      assert PrintAll([t]) == Print(t) + PrintAll([]);
    } else {
      var all := ts + [t];
      assert all[0] == ts[0] && all[1..] == ts[1..] + [t];
      Snoc(ts[1..], t);
      assert PrintAll(all) == Print(ts[0]) + PrintAll(all[1..]);
      hide Print, PrintAll, DepthOf;
    }
  }

  lemma ContentsGrow(ts: seq<Ty>, t: Ty, arrays: nat, structs: nat, frames: nat)
    requires ContentsOk(ts, arrays, structs, frames) && WellFormed(t) && Within(DepthOf(t), arrays, structs, frames)
    ensures ContentsOk(ts + [t], arrays, structs, frames)
  {
    hide WellFormed, DepthOf, DepthAll;
    Snoc(ts, t);
  }

  /** `Complete` does to the automaton what `Add` does to what is open. */
  lemma {:induction false} AddIsComplete(base: seq<Ty>, opens: seq<Open>, t: Ty)
    requires Inv(base, opens) && WellFormed(t) && Within(DepthOf(t), Arrays(opens), Structs(opens), |opens|)
    requires AwaitsKey(opens) ==> t.Basic?
    requires Complete(Stack(opens), Arrays(opens), Structs(opens)).Running?
    ensures var b := Add(base, opens, t);
      && Inv(b.base, b.opens)
      && Complete(Stack(opens), Arrays(opens), Structs(opens)) == Running(Stack(b.opens), Arrays(b.opens), Structs(b.opens))
      && Text(b.base, b.opens) == Text(base, opens) + Print(t)
    decreases |opens|
  {
    if opens == [] {
      AddToBase(base, t);
    } else if Last(opens).OpenArray? {
      ArrayCompletes(base, opens, t);
      hide Inv, Text, Stack, Within, Print, Complete, WellFormed, Arrays, Structs, DepthOf;
      AddIsComplete(base, Below(opens), Arr(t));
    } else {
      AddToTop(base, opens, t);
    }
  }

  lemma AddToBase(base: seq<Ty>, t: Ty)
    requires Inv(base, []) && WellFormed(t) && Within(DepthOf(t), 0, 0, 0)
    ensures Inv(base + [t], []) && Text(base + [t], []) == Text(base, []) + Print(t)
  {
    hide WellFormed, DepthOf, DepthAll, Print, PrintAll;
    ContentsGrow(base, t, 0, 0, 0);
    Snoc(base, t);
  }

  /** An element that ends completes its array. */
  lemma ArrayCompletes(base: seq<Ty>, opens: seq<Open>, t: Ty)
    requires opens != [] && Last(opens).OpenArray? && Inv(base, opens)
    requires WellFormed(t) && Within(DepthOf(t), Arrays(opens), Structs(opens), |opens|)
    ensures var below := Below(opens);
      && Inv(base, below) && !AwaitsKey(below)
      && WellFormed(Arr(t)) && Within(DepthOf(Arr(t)), Arrays(below), Structs(below), |below|)
      && Complete(Stack(opens), Arrays(opens), Structs(opens)) == Complete(Stack(below), Arrays(below), Structs(below))
      && Text(base, opens) + Print(t) == Text(base, below) + Print(Arr(t))
  {
    hide Inv, Stack, Arrays, Structs, Text, Complete, Print, PrintAll, DepthOf, DepthAll, WellFormed, Within, ContentsOk, AwaitsKey;
    var below := Below(opens);
    assert opens == below + [OpenArray];
    OpenOnTop(base, below, OpenArray);
    CompleteUnfold(Stack(below), ArrayNest, Arrays(opens), Structs(opens));
    ArrayType(t, Arrays(below), Structs(below), |below|);
    Assoc(Text(base, below), "a", Print(t));
  }

  lemma ArrayType(t: Ty, arrays: int, structs: int, frames: int)
    ensures WellFormed(t) ==> WellFormed(Arr(t))
    ensures Within(DepthOf(t), arrays + 1, structs, frames + 1) ==> Within(DepthOf(Arr(t)), arrays, structs, frames)
    ensures Print(Arr(t)) == "a" + Print(t)
  {
  }

  /** What holds at the top of what is open. */
  lemma InvTop(base: seq<Ty>, opens: seq<Open>)
    requires opens != [] && Inv(base, opens)
    ensures var o, below := Last(opens), Below(opens);
      && Inv(base, below) && !AwaitsKey(below)
      && ContentsOk(Contents(o), Arrays(opens), Structs(opens), |opens|)
      && Arrays(opens) == Arrays(below) + (if o.OpenArray? then 1 else 0)
      && Structs(opens) == Structs(below) + (if o.OpenStruct? then 1 else 0)
      && (o.OpenDict? ==> below != [] && Last(below).OpenArray? && |o.parts| <= 2 && (o.parts != [] ==> o.parts[0].Basic?))
  {
    hide ContentsOk;
  }

  lemma AddToTop(base: seq<Ty>, opens: seq<Open>, t: Ty)
    requires opens != [] && !Last(opens).OpenArray?
    requires Inv(base, opens) && WellFormed(t) && Within(DepthOf(t), Arrays(opens), Structs(opens), |opens|)
    requires AwaitsKey(opens) ==> t.Basic?
    requires Complete(Stack(opens), Arrays(opens), Structs(opens)).Running?
    ensures var b := Add(base, opens, t);
      && Inv(b.base, b.opens)
      && Complete(Stack(opens), Arrays(opens), Structs(opens)) == Running(Stack(b.opens), Arrays(b.opens), Structs(b.opens))
      && Text(b.base, b.opens) == Text(base, opens) + Print(t)
  {
    hide Inv, Stack, Arrays, Structs, Text, TextOf, Complete, Add, WellFormed, DepthOf, DepthAll, Within, Print, PrintAll, ContentsOk;
    var o, below := Last(opens), Below(opens);
    var o' := if o.OpenDict? then OpenDict(o.parts + [t]) else OpenStruct(o.fields + [t]);
    assert opens == below + [o];
    OpenOnTop(base, below, o);
    OpenOnTop(base, below, o');
    AddUnfold(base, below, o, t);
    CompleteUnfold(Stack(below), NestOf(o), Arrays(opens), Structs(opens));
    ContentsGrow(Contents(o), t, Arrays(opens), Structs(opens), |opens|);
    TextGrows(o, o', t);
    Assoc(Text(base, below), TextOf(o), Print(t));
  }

  lemma TextGrows(o: Open, o': Open, t: Ty)
    requires !o.OpenArray? && o' == if o.OpenDict? then OpenDict(o.parts + [t]) else OpenStruct(o.fields + [t])
    ensures TextOf(o') == TextOf(o) + Print(t)
  {
    hide PrintAll, Print;
    Snoc(Contents(o), t);
    Assoc(if o.OpenDict? then "{" else "(", PrintAll(Contents(o)), Print(t));
  }

  lemma AddUnfold(base: seq<Ty>, below: seq<Open>, o: Open, t: Ty)
    ensures Add(base, below + [o], t) ==
      if o.OpenArray? then Add(base, below, Arr(t))
      else if o.OpenDict? then Built(base, below + [OpenDict(o.parts + [t])])
      else Built(base, below + [OpenStruct(o.fields + [t])])
  {
    assert Below(below + [o]) == below && Last(below + [o]) == o;
  }

  /** What is open, from the bottom up. */
  lemma OpenOnTop(base: seq<Ty>, below: seq<Open>, o: Open)
    ensures var opens := below + [o];
      && Stack(opens) == Stack(below) + [NestOf(o)]
      && Arrays(opens) == Arrays(below) + (if o.OpenArray? then 1 else 0)
      && Structs(opens) == Structs(below) + (if o.OpenStruct? then 1 else 0)
      && Text(base, opens) == Text(base, below) + TextOf(o)
      && (Inv(base, opens) <==>
            && Inv(base, below)
            && ContentsOk(Contents(o), Arrays(opens), Structs(opens), |opens|)
            && !AwaitsKey(below)
            && (o.OpenDict? ==>
                  && below != [] && Last(below).OpenArray?
                  && |o.parts| <= 2
                  && (o.parts != [] ==> o.parts[0].Basic?)))
  {
    hide ContentsOk;
    assert Below(below + [o]) == below && Last(below + [o]) == o;
  }

  lemma RunNext(s: State, text: string)
    requires s.Running? && Run(s, text).Running?
    ensures if text == "" then Run(s, text) == s
      else Step(s, text[0]).Running? && Run(s, text) == Run(Step(s, text[0]), text[1..])
  {
    hide Step;
  }

  /** As long as the automaton runs, it is where what is open says. */
  lemma {:induction false} Reached(base: seq<Ty>, opens: seq<Open>, text: string) returns (b: Built)
    requires Inv(base, opens)
    requires Run(Running(Stack(opens), Arrays(opens), Structs(opens)), text).Running?
    ensures Inv(b.base, b.opens) && Text(b.base, b.opens) == Text(base, opens) + text
    ensures Run(Running(Stack(opens), Arrays(opens), Structs(opens)), text) == Running(Stack(b.opens), Arrays(b.opens), Structs(b.opens))
    decreases |text|
  {
    hide Inv, Text, Stack, Run, Step, Arrays, Structs;
    RunNext(Running(Stack(opens), Arrays(opens), Structs(opens)), text);
    if text == "" {
      assert Text(base, opens) + text == Text(base, opens);
      b := Built(base, opens);
    } else {
      var c, rest := text[0], text[1..];
      var next := NextOpens(base, opens, c);
      b := Reached(next.base, next.opens, rest);
      assert text == [c] + rest;
      assert Text(base, opens) + ([c] + rest) == Text(base, opens) + [c] + rest;
    }
  }

  lemma StartInv()
    ensures Inv([], []) && Text([], []) == "" && START == Running(Stack([]), Arrays([]), Structs([]))
  {
  }

  lemma NothingOpen(base: seq<Ty>, opens: seq<Open>)
    requires Inv(base, opens) && Stack(opens) == []
    ensures opens == [] && Describes(base, Text(base, opens)) && ShallowEnough(base) && FitsStack(base)
  {
  }

  /** One character that the automaton takes. */
  lemma NextOpens(base: seq<Ty>, opens: seq<Open>, c: char) returns (b: Built)
    requires Inv(base, opens)
    requires Step(Running(Stack(opens), Arrays(opens), Structs(opens)), c).Running?
    ensures Inv(b.base, b.opens) && Text(b.base, b.opens) == Text(base, opens) + [c]
    ensures Step(Running(Stack(opens), Arrays(opens), Structs(opens)), c) == Running(Stack(b.opens), Arrays(b.opens), Structs(b.opens))
  {
    KeyOnTop(opens);
    hide Inv, Text, Stack, Arrays, Structs, Complete, Add;
    if c == 'a' {
      b := OpenOne(base, opens, OpenArray, c);
    } else if c == '(' {
      b := OpenOne(base, opens, OpenStruct([]), c);
    } else if c == '{' {
      b := OpenOne(base, opens, OpenDict([]), c);
    } else if c == ')' {
      b := CloseStruct(base, opens);
    } else if c == '}' {
      b := CloseDict(base, opens);
    } else {
      var t := if c == 'v' then Variant else Basic(c);
      LimitsHere(base, opens);
      b := Add(base, opens, t);
      AddIsComplete(base, opens, t);
    }
  }

  lemma KeyOnTop(opens: seq<Open>)
    ensures AwaitsKey(opens) <==> OnTop(Stack(opens), DictEntry(0))
    ensures opens != [] ==> Pop(Stack(opens)) == Stack(Below(opens)) && Top(Stack(opens)) == NestOf(Last(opens))
  {
    if opens != [] {
      assert Pop(Stack(opens)) == Stack(Below(opens));
    }
  }

  lemma LimitsHere(base: seq<Ty>, opens: seq<Open>)
    requires Inv(base, opens)
    ensures Within(Depth(0, 0, 0), Arrays(opens), Structs(opens), |opens|)
  {
  }

  lemma OpenOne(base: seq<Ty>, opens: seq<Open>, o: Open, c: char) returns (b: Built)
    requires Inv(base, opens) && !AwaitsKey(opens)
    requires match o
      case OpenArray => c == 'a' && Arrays(opens) < MAX_NESTING
      case OpenDict(parts) => c == '{' && parts == [] && opens != [] && Last(opens).OpenArray?
      case OpenStruct(fs) => c == '(' && fs == [] && Structs(opens) < MAX_NESTING
    requires |opens| < STACK_CAPACITY
    ensures b.base == base && b.opens == opens + [o]
    ensures Inv(b.base, b.opens) && Text(b.base, b.opens) == Text(base, opens) + [c]
    ensures Stack(b.opens) == Stack(opens) + [NestOf(o)]
    ensures Arrays(b.opens) == Arrays(opens) + if o.OpenArray? then 1 else 0
    ensures Structs(b.opens) == Structs(opens) + if o.OpenStruct? then 1 else 0
  {
    b := Built(base, opens + [o]);
    assert Below(b.opens) == opens;
    LimitsHere(base, opens);
  }

  lemma CloseStruct(base: seq<Ty>, opens: seq<Open>) returns (b: Built)
    requires Inv(base, opens) && Step(Running(Stack(opens), Arrays(opens), Structs(opens)), ')').Running?
    ensures Inv(b.base, b.opens) && Text(b.base, b.opens) == Text(base, opens) + ")"
    ensures Step(Running(Stack(opens), Arrays(opens), Structs(opens)), ')') == Running(Stack(b.opens), Arrays(b.opens), Structs(b.opens))
  {
    hide Inv, Text, Stack, Arrays, Structs, Complete, Add, PrintAll, Print, DepthAll, DepthOf, WellFormed, ContentsOk, Within, AwaitsKey;
    var o, below := Last(opens), Below(opens);
    assert opens == below + [o];
    OpenOnTop(base, below, o);
    assert Pop(Stack(opens)) == Stack(below) && Top(Stack(opens)) == NestOf(o);
    var t := Struct(o.fields);
    StructFits(o.fields, Arrays(below), Structs(below), |below|);
    StructText(Text(base, below), o.fields);
    b := Add(base, below, t);
    AddIsComplete(base, below, t);
  }

  lemma StructFits(fs: seq<Ty>, arrays: nat, structs: nat, frames: nat)
    requires fs != [] && ContentsOk(fs, arrays, structs + 1, frames + 1)
    ensures WellFormed(Struct(fs)) && Within(DepthOf(Struct(fs)), arrays, structs, frames)
  {
  }

  lemma StructText(before: string, fs: seq<Ty>)
    ensures before + TextOf(OpenStruct(fs)) + ")" == before + Print(Struct(fs))
  {
    hide PrintAll;
    Assoc(before, "(" + PrintAll(fs), ")");
  }

  lemma CloseDict(base: seq<Ty>, opens: seq<Open>) returns (b: Built)
    requires Inv(base, opens) && Step(Running(Stack(opens), Arrays(opens), Structs(opens)), '}').Running?
    ensures Inv(b.base, b.opens) && Text(b.base, b.opens) == Text(base, opens) + "}"
    ensures Step(Running(Stack(opens), Arrays(opens), Structs(opens)), '}') == Running(Stack(b.opens), Arrays(b.opens), Structs(b.opens))
  {
    DictShape(base, opens);
    var below, parts := Below(Below(opens)), Last(opens).parts;
    var t := Dict(parts[0].code, parts[1]);
    DictText(base, opens);
    DictFits(base, opens);
    hide Inv, Text, Stack, Step, Arrays, Structs, Complete, Add, Print, DepthOf, Within, WellFormed;
    b := Add(base, below, t);
    AddIsComplete(base, below, t);
  }

  /** A dict entry that can be closed: a key and a value, on an array. */
  lemma DictShape(base: seq<Ty>, opens: seq<Open>)
    requires Inv(base, opens) && Step(Running(Stack(opens), Arrays(opens), Structs(opens)), '}').Running?
    ensures |opens| >= 2 && Last(opens).OpenDict? && Last(Below(opens)).OpenArray?
    ensures var parts := Last(opens).parts; |parts| == 2 && parts[0].Basic?
    ensures var below := Below(Below(opens));
      Step(Running(Stack(opens), Arrays(opens), Structs(opens)), '}') == Complete(Stack(below), Arrays(below), Structs(below))
  {
    hide Inv, ContentsOk, Text, TextOf, Stack, Arrays, Structs, Complete, AwaitsKey;
    var o, below := Last(opens), Below(opens);
    assert opens == below + [o];
    OpenOnTop(base, below, o);
    assert Pop(Stack(opens)) == Stack(below) && Top(Stack(opens)) == NestOf(o);
    var rest := Below(below);
    assert below == rest + [Last(below)];
    OpenOnTop(base, rest, Last(below));
    CompleteUnfold(Stack(rest), ArrayNest, Arrays(opens), Structs(opens));
  }

  lemma DictFits(base: seq<Ty>, opens: seq<Open>)
    requires Inv(base, opens) && |opens| >= 2 && Last(opens).OpenDict? && Last(Below(opens)).OpenArray?
    requires var parts := Last(opens).parts; |parts| == 2 && parts[0].Basic?
    ensures var parts, below := Last(opens).parts, Below(Below(opens));
      var t := Dict(parts[0].code, parts[1]);
      && Inv(base, below) && !AwaitsKey(below)
      && WellFormed(t) && Within(DepthOf(t), Arrays(below), Structs(below), |below|)
  {
    InvTop(base, opens);
    InvTop(base, Below(opens));
    hide Inv, DepthAll;
    var parts := Last(opens).parts;
    DictEntryDepth(parts);
    assert parts[0] in parts && parts[1] in parts;
  }

  lemma DictText(base: seq<Ty>, opens: seq<Open>)
    requires |opens| >= 2 && Last(opens).OpenDict? && Last(Below(opens)).OpenArray?
    requires var parts := Last(opens).parts; |parts| == 2 && parts[0].Basic?
    ensures var parts := Last(opens).parts;
      Text(base, opens) + "}" == Text(base, Below(Below(opens))) + Print(Dict(parts[0].code, parts[1]))
  {
    var parts, start := Last(opens).parts, Text(base, Below(Below(opens)));
    DictEntryDepth(parts);
    hide PrintAll;
    var v := Print(parts[1]);
    assert Text(base, opens) == start + "a" + ("{" + ([parts[0].code] + v));
    assert start + "a" + ("{" + ([parts[0].code] + v)) + "}" == start + ("a{" + [parts[0].code] + v + "}");
  }

  lemma DictEntryDepth(parts: seq<Ty>)
    requires |parts| == 2 && parts[0].Basic?
    ensures DepthAll(parts) == DepthOf(parts[1])
    ensures PrintAll(parts) == [parts[0].code] + Print(parts[1])
  {
    assert parts[1..] == [parts[1]];
    assert DepthAll([parts[1]]) == DepthOf(parts[1]) && PrintAll([parts[1]]) == Print(parts[1]);
  }

  // ----- Main results -----

  /**
   What the validator makes of any printed list of single complete types that is not too long: it is accepted, or
   refused for the limit it exceeds.
   */
  lemma ValidatePrinted(ts: seq<Ty>)
    requires (forall t :: t in ts ==> WellFormed(t)) && |PrintAll(ts)| <= MAX_LEN
    ensures var r := Validate(PrintAll(ts));
      if ShallowEnough(ts) && FitsStack(ts) then r.Running? else Refused(r, DepthAll(ts), 0, 0, 0)
  {
    hide Run, PrintAll, DepthAll, WellFormed;
    RunTypes(ts, "", [], 0, 0);
    assert PrintAll(ts) + "" == PrintAll(ts);
    assert Run(START, "") == START by { RunEmpty(START); }
  }

  lemma RunEmpty(s: State)
    ensures Run(s, "") == s
  {
  }

  /** The validator accepts exactly the valid signatures whose nesting its stack can hold. */
  lemma ValidateIff(sig: string)
    ensures Validate(sig).Running? <==>
      |sig| <= MAX_LEN && exists ts :: Describes(ts, sig) && ShallowEnough(ts) && FitsStack(ts)
  {
    if Validate(sig).Running? {
      var ts := AcceptedIsDescribed(sig);
    }
    if ts :| |sig| <= MAX_LEN && Describes(ts, sig) && ShallowEnough(ts) && FitsStack(ts) {
      ValidatePrinted(ts);
    }
  }

  lemma AcceptedIsDescribed(sig: string) returns (ts: seq<Ty>)
    requires Validate(sig).Running?
    ensures Describes(ts, sig) && ShallowEnough(ts) && FitsStack(ts)
  {
    hide Inv, Text, Stack, Run, Arrays, Structs, Describes, ShallowEnough, FitsStack;
    StartInv();
    var b := Reached([], [], sig);
    NothingOpen(b.base, b.opens);
    assert "" + sig == sig;
    ts := b.base;
  }

  function CountArrays(stack: seq<Nest>): nat {
    if stack == [] then 0 else CountArrays(Pop(stack)) + if Top(stack).ArrayNest? then 1 else 0
  }

  function CountStructs(stack: seq<Nest>): nat {
    if stack == [] then 0 else CountStructs(Pop(stack)) + if Top(stack).StructNest? then 1 else 0
  }

  /**
   What holds in every state the automaton can reach: the counters are the numbers of open arrays and structures
   (so they never run below zero) and keep to their limits, and every dict entry sits directly on an array.
   */
  lemma ReachableStates(text: string)
    requires Run(START, text).Running?
    ensures var s := Run(START, text);
      && s.arrays == CountArrays(s.stack) <= MAX_NESTING
      && s.structs == CountStructs(s.stack) <= MAX_NESTING
      && (forall i :: 0 <= i < |s.stack| && s.stack[i].DictEntry? ==> i > 0 && s.stack[i - 1].ArrayNest?)
      && |s.stack| <= 2 * s.arrays + s.structs
      && |s.stack| <= STACK_CAPACITY
  {
    StartInv();
    var b := Reached([], [], text);
    LimitsHere(b.base, b.opens);
    StackOfOpens(b.base, b.opens);
  }

  lemma {:induction false} StackOfOpens(base: seq<Ty>, opens: seq<Open>)
    requires Inv(base, opens)
    ensures var stack := Stack(opens);
      && Arrays(opens) == CountArrays(stack)
      && Structs(opens) == CountStructs(stack)
      && (forall i :: 0 <= i < |stack| && stack[i].DictEntry? ==> i > 0 && stack[i - 1].ArrayNest?)
      && |stack| + (if opens != [] && Last(opens).OpenArray? then 1 else 0) <= 2 * Arrays(opens) + Structs(opens)
  {
    hide Inv, Text, WellFormed, ContentsOk, CountArrays, CountStructs, Stack, Arrays, Structs, AwaitsKey;
    if opens == [] {
      NoneOpen();
    } else {
      var o, below := Last(opens), Below(opens);
      assert opens == below + [o];
      OpenOnTop(base, below, o);
      StackOfOpens(base, below);
      CountTop(Stack(below), NestOf(o));
      if o.OpenDict? {
        var rest := Below(below);
        assert below == rest + [Last(below)];
        OpenOnTop(base, rest, Last(below));
      }
    }
  }

  lemma NoneOpen()
    ensures Stack([]) == [] && Arrays([]) == Structs([]) == 0 && CountArrays([]) == CountStructs([]) == 0
  {
  }

  lemma CountTop(stack: seq<Nest>, n: Nest)
    ensures CountArrays(stack + [n]) == CountArrays(stack) + if n.ArrayNest? then 1 else 0
    ensures CountStructs(stack + [n]) == CountStructs(stack) + if n.StructNest? then 1 else 0
  {
    assert Pop(stack + [n]) == stack;
  }

  /** No dictionary is anywhere in it. */
  predicate NoDict(t: Ty) {
    match t
    case Basic(_) => true
    case Variant => true
    case Arr(e) => NoDict(e)
    case Dict(_, _) => false
    case Struct(fs) => forall f :: f in fs ==> NoDict(f)
  }

  /** Without dictionaries nothing is open but arrays and structures. */
  lemma {:induction false} NoDictFrames(t: Ty)
    requires NoDict(t)
    ensures DepthOf(t).frames <= DepthOf(t).arrays + DepthOf(t).structs
    decreases t, 0
  {
    match t
    case Arr(e) => NoDictFrames(e);
    case Struct(fs) => NoDictFramesAll(fs);
    case _ =>
  }

  lemma {:induction false} NoDictFramesAll(ts: seq<Ty>)
    requires forall t :: t in ts ==> NoDict(t)
    ensures DepthAll(ts).frames <= DepthAll(ts).arrays + DepthAll(ts).structs
    decreases ts, 1
  {
    if ts != [] {
      NoDictFrames(ts[0]);
      NoDictFramesAll(ts[1..]);
    }
  }

  /** A list of types without dictionaries that keeps to the nesting limits fits the stack: no panic for these. */
  lemma NoDictFits(ts: seq<Ty>)
    requires (forall t :: t in ts ==> NoDict(t)) && ShallowEnough(ts)
    ensures FitsStack(ts)
  {
    NoDictFramesAll(ts);
  }

  lemma {:induction false} NoDictNoBrace(t: Ty)
    requires NoDict(t) && WellFormed(t)
    ensures '{' !in Print(t)
    decreases t, 0
  {
    match t
    case Arr(e) => NoDictNoBrace(e);
    case Struct(fs) => NoDictNoBraces(fs);
    case _ =>
  }

  lemma {:induction false} NoDictNoBraces(ts: seq<Ty>)
    requires forall t :: t in ts ==> NoDict(t) && WellFormed(t)
    ensures '{' !in PrintAll(ts)
    decreases ts, 1
  {
    if ts != [] {
      NoDictNoBrace(ts[0]);
      NoDictNoBraces(ts[1..]);
    }
  }

  /** Only arrays and structures are open, and the counters say how many. */
  predicate Flat(stack: seq<Nest>, arrays: int, structs: int) {
    && arrays == CountArrays(stack) && structs == CountStructs(stack) && |stack| == arrays + structs
    && 0 <= arrays <= MAX_NESTING && 0 <= structs <= MAX_NESTING
    && forall i :: 0 <= i < |stack| ==> !stack[i].DictEntry?
  }

  predicate FlatState(s: State) {
    !s.StackPanic? && (s.Running? ==> Flat(s.stack, s.arrays, s.structs))
  }

  lemma CountsOnTop(stack: seq<Nest>)
    requires stack != []
    ensures stack == Pop(stack) + [Top(stack)]
    ensures CountArrays(stack) == CountArrays(Pop(stack)) + if Top(stack).ArrayNest? then 1 else 0
    ensures CountStructs(stack) == CountStructs(Pop(stack)) + if Top(stack).StructNest? then 1 else 0
  {
  }

  lemma {:induction false} CountsNotNegative(stack: seq<Nest>)
    ensures CountArrays(stack) >= 0 && CountStructs(stack) >= 0
  {
    if stack != [] { CountsNotNegative(Pop(stack)); }
  }

  lemma FlatPop(stack: seq<Nest>, arrays: int, structs: int)
    requires stack != [] && Flat(stack, arrays, structs)
    ensures Top(stack).ArrayNest? ==> Flat(Pop(stack), arrays - 1, structs)
    ensures Top(stack).StructNest? ==> Flat(Pop(stack), arrays, structs - 1) && Flat(Pop(stack) + [StructNest(true)], arrays, structs)
    ensures !Top(stack).DictEntry?
  {
    hide CountArrays, CountStructs;
    CountsOnTop(stack);
    CountsNotNegative(Pop(stack));
    CountTop(Pop(stack), StructNest(true));
  }

  lemma {:induction false} CompleteFlat(stack: seq<Nest>, arrays: int, structs: int)
    requires Flat(stack, arrays, structs)
    ensures FlatState(Complete(stack, arrays, structs))
    decreases |stack|
  {
    hide Complete, Flat;
    CompleteTop(stack, arrays, structs);
    if stack != [] {
      FlatPop(stack, arrays, structs);
      if Top(stack).ArrayNest? { CompleteFlat(Pop(stack), arrays - 1, structs); }
    }
  }

  lemma FlatPush(stack: seq<Nest>, arrays: int, structs: int)
    requires Flat(stack, arrays, structs)
    ensures arrays < MAX_NESTING ==> |stack| < STACK_CAPACITY && Flat(stack + [ArrayNest], arrays + 1, structs)
    ensures structs < MAX_NESTING ==> |stack| < STACK_CAPACITY && Flat(stack + [StructNest(false)], arrays, structs + 1)
  {
    hide CountArrays, CountStructs;
    CountTop(stack, ArrayNest);
    CountTop(stack, StructNest(false));
  }

  lemma StepFlat(s: State, c: char)
    requires s.Running? && FlatState(s) && c != '{'
    ensures FlatState(Step(s, c))
  {
    hide Complete, Flat;
    FlatPush(s.stack, s.arrays, s.structs);
    if s.stack != [] { FlatPop(s.stack, s.arrays, s.structs); }
    if c == ')' {
      if OnTop(s.stack, StructNest(true)) { CompleteFlat(Pop(s.stack), s.arrays, s.structs - 1); }
    } else if c == 'v' || BasicCode(c) {
      CompleteFlat(s.stack, s.arrays, s.structs);
    }
  }

  lemma {:induction false} RunFlat(s: State, text: string)
    requires FlatState(s) && '{' !in text
    ensures FlatState(Run(s, text))
    decreases |text|
  {
    hide Step, Flat;
    if text != "" && s.Running? {
      StepFlat(s, text[0]);
      RunFlat(Step(s, text[0]), text[1..]);
    }
  }

  /** The stack is large enough for everything without dict entries: on no such text, valid or not, does the validator panic. */
  lemma NoBraceNoPanic(sig: string)
    requires '{' !in sig
    ensures !Validate(sig).StackPanic?
  {
    hide Run;
    NoneOpen();
    RunFlat(START, sig);
  }

  /** Arrays of dict entries in one another, around a structure. */
  function NestedDicts(n: nat): Ty {
    if n == 0 then Struct([Basic('i')]) else Dict('y', NestedDicts(n - 1))
  }

  lemma {:induction false} NestedDictsDepth(n: nat)
    ensures WellFormed(NestedDicts(n)) && |Print(NestedDicts(n))| == 4 * n + 3
    ensures DepthOf(NestedDicts(n)) == Depth(n, 1, 2 * n + 1)
  {
    if n == 0 {
      assert DepthAll([Basic('i')]) == Depth(0, 0, 0);
      assert PrintAll([Basic('i')]) == "i";
    } else {
      NestedDictsDepth(n - 1);
    }
  }

  /** The stack's capacity is too small: this signature is valid, and the validator panics on it. */
  lemma ValidSignatureOverflows()
    ensures var ts := [NestedDicts(32)];
      && Describes(ts, PrintAll(ts)) && ShallowEnough(ts) && |PrintAll(ts)| <= MAX_LEN
      && Validate(PrintAll(ts)) == StackPanic
  {
    var t := NestedDicts(32);
    NestedDictsDepth(32);
    Alone(t);
    hide NestedDicts;
    ValidatePrinted([t]);
  }

  lemma Alone(t: Ty)
    ensures PrintAll([t]) == Print(t) && DepthAll([t]) == DepthOf(t)
  {
    assert PrintAll([t]) == Print(t) + PrintAll([]);
    assert DepthAll([]) == Depth(0, 0, 0);
  }
}
