/**
  What a comparison records: the two ordered message lists, and whether the walk was cut
  short by a null dereference in the source (an exception that leaves the lists as they
  were when it was thrown).
 */
module Report {

  /** `CompareResult(Warnings, Errors)` */
  datatype CompareResult = CompareResult(warnings: seq<string>, errors: seq<string>)

  /** The messages one part of the walk appends, and whether that part threw. */
  datatype Trail = Trail(warnings: seq<string>, errors: seq<string>, threw: bool)

  const Nothing := Trail([], [], false)

  const Thrown := Trail([], [], true)

  function Warn(message: string): Trail
  {
    Trail([message], [], false)
  }

  function Fail(message: string): Trail
  {
    Trail([], [message], false)
  }

  /** `a`, then `b` unless `a` threw. */
  function Then(a: Trail, b: Trail): Trail
  {
    if a.threw then a else Trail(a.warnings + b.warnings, a.errors + b.errors, b.threw)
  }

  /** The parts of a loop, one after the other, stopping at the first that throws. */
  function Fold(parts: seq<Trail>): Trail
  {
    if |parts| == 0 then Nothing else Then(Fold(parts[..|parts| - 1]), parts[|parts| - 1])
  }

  lemma ThenAssociative(a: Trail, b: Trail, c: Trail)
    ensures Then(Then(a, b), c) == Then(a, Then(b, c))
  {
  }

  /** Lists that had `a` and then `b` appended had `Then(a, b)` appended. */
  lemma ThenAppends(
    a: Trail, b: Trail,
    w0: seq<string>, e0: seq<string>, w1: seq<string>, e1: seq<string>, w: seq<string>, e: seq<string>)
    requires !a.threw
    requires w1 == w0 + a.warnings && e1 == e0 + a.errors
    requires w == w1 + b.warnings && e == e1 + b.errors
    ensures w == w0 + Then(a, b).warnings && e == e0 + Then(a, b).errors && Then(a, b).threw == b.threw
  {
  }

  /** One more iteration of a loop is one more `Then`. */
  lemma FoldPrefix(parts: seq<Trail>, i: nat)
    requires i < |parts|
    ensures Fold(parts[..i + 1]) == Then(Fold(parts[..i]), parts[i])
  {
    assert parts[..i + 1][..i] == parts[..i];
  }

  /**
    The bookkeeping of one loop iteration: lists that held the first `i` parts and then had
    part `i` appended hold the first `i + 1` parts.
   */
  lemma FoldAdvance(
    parts: seq<Trail>, i: nat,
    w0: seq<string>, e0: seq<string>, wi: seq<string>, ei: seq<string>, w: seq<string>, e: seq<string>)
    requires i < |parts| && !Fold(parts[..i]).threw
    requires wi == w0 + Fold(parts[..i]).warnings && ei == e0 + Fold(parts[..i]).errors
    requires w == wi + parts[i].warnings && e == ei + parts[i].errors
    ensures w == w0 + Fold(parts[..i + 1]).warnings && e == e0 + Fold(parts[..i + 1]).errors
    ensures Fold(parts[..i + 1]).threw == parts[i].threw
  {
    FoldPrefix(parts, i);
  }

  /** Once a prefix of the loop has thrown, the rest of the loop adds nothing. */
  lemma {:induction false} FoldHalts(parts: seq<Trail>, i: nat)
    requires i <= |parts| && Fold(parts[..i]).threw
    ensures Fold(parts) == Fold(parts[..i])
  {
    if i < |parts| {
      var init := parts[..|parts| - 1];
      assert init[..i] == parts[..i];
      FoldHalts(init, i);
    } else {
      assert parts[..i] == parts;
    }
  }

  /** Running two loops one after the other is one loop over both. */
  lemma {:induction false} FoldAppend(a: seq<Trail>, b: seq<Trail>)
    ensures Fold(a + b) == Then(Fold(a), Fold(b))
  {
    if |b| == 0 {
      assert a + b == a;
    } else {
      var init := b[..|b| - 1];
      assert (a + b)[..|a + b| - 1] == a + init;
      FoldAppend(a, init);
      ThenAssociative(Fold(a), Fold(init), b[|b| - 1]);
    }
  }

  /** `Fold` of parts that never warn and never throw: errors only, in order. */
  lemma {:induction false} FoldOfErrors(parts: seq<Trail>)
    requires forall k :: 0 <= k < |parts| ==> parts[k].warnings == [] && !parts[k].threw
    ensures Fold(parts).warnings == [] && !Fold(parts).threw
  {
    if |parts| > 0 {
      FoldOfErrors(parts[..|parts| - 1]);
    }
  }

  /** A trail with no errors that did not throw. */
  predicate Clean(t: Trail)
  {
    t.errors == [] && !t.threw
  }

  /** A loop whose every part is clean is clean. */
  lemma {:induction false} FoldClean(parts: seq<Trail>)
    requires forall k :: 0 <= k < |parts| ==> Clean(parts[k])
    ensures Clean(Fold(parts))
  {
    if |parts| > 0 {
      FoldClean(parts[..|parts| - 1]);
    }
  }

  /** The first iteration of a loop, then the others. */
  lemma FoldCons(first: Trail, rest: seq<Trail>)
    ensures Fold([first] + rest) == Then(first, Fold(rest))
  {
    FoldAppend([first], rest);
    assert Fold([first]) == Then(Nothing, first);
  }
}
