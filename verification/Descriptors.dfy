/** File descriptors that travel beside the bytes (constants of src/conn/mod.rs). */
module Descriptors {
  /** `DBUS_MAX_FD_MESSAGE`. */
  const MAX_FDS := 32

  /** Descriptors, and the position in the stream of the byte they are attached to. */
  datatype Mark = Mark(at: int, fds: seq<int>)

  function MarkAt(at: int, fds: seq<int>): (m: seq<Mark>)
    ensures fds == [] ==> m == []
  {
    if fds == [] then [] else [Mark(at, fds)]
  }

  /** The descriptors attached to the bytes from one position up to another. */
  function FdsIn(marks: seq<Mark>, from: int, to: int): seq<int> {
    if marks == [] then []
    else (if from <= marks[0].at < to then marks[0].fds else []) + FdsIn(marks[1..], from, to)
  }

  predicate Ascending(marks: seq<Mark>) {
    forall i, j :: 0 <= i < j < |marks| ==> marks[i].at < marks[j].at
  }

  /** All marks are in a part of the stream. */
  predicate Between(marks: seq<Mark>, from: int, to: int) {
    forall i :: 0 <= i < |marks| ==> from <= marks[i].at < to
  }

  lemma {:induction false} FdsInNone(marks: seq<Mark>, from: int, to: int)
    requires forall i :: 0 <= i < |marks| ==> !(from <= marks[i].at < to)
    ensures FdsIn(marks, from, to) == []
  {
    if marks != [] {
      FdsInNone(marks[1..], from, to);
    }
  }

  lemma {:induction false} FdsInAppend(a: seq<Mark>, b: seq<Mark>, from: int, to: int)
    ensures FdsIn(a + b, from, to) == FdsIn(a, from, to) + FdsIn(b, from, to)
  {
    if a == [] {
      assert a + b == b;
    } else {
      assert (a + b)[1..] == a[1..] + b;
      FdsInAppend(a[1..], b, from, to);
    }
  }

  /** Reading a part of the stream in two goes gives the same descriptors in the same order. */
  lemma {:induction false} FdsInSplit(marks: seq<Mark>, from: int, mid: int, to: int)
    requires Ascending(marks) && from <= mid <= to
    ensures FdsIn(marks, from, to) == FdsIn(marks, from, mid) + FdsIn(marks, mid, to)
  {
    if marks != [] {
      FdsInSplit(marks[1..], from, mid, to);
      if marks[0].at >= mid {
        FdsInNone(marks[1..], from, mid);
      }
    }
  }

  lemma AscendingSnoc(marks: seq<Mark>, at: int, fds: seq<int>, end: int)
    requires Ascending(marks) && Between(marks, 0, at) && 0 <= at < end
    ensures Ascending(marks + MarkAt(at, fds)) && Between(marks + MarkAt(at, fds), 0, end)
  {
  }
}
