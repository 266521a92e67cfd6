/** Sequence operations that the application performs on every one of its lists:
    JavaScript's `filter`, `map` with a conditional replacement, `find`, and the
    sum that `reduce` computes. */
module Lists {
  import opened Wrappers

  /** The elements of `s` for which `drop` does not hold, in their original order
      (`s.filter(x => !drop(x))`). */
  function Without<T>(s: seq<T>, drop: T -> bool): (r: seq<T>)
    ensures |r| <= |s|
  {
    if s == [] then []
    else (if drop(s[0]) then [] else [s[0]]) + Without(s[1..], drop)
  }

  /** Filtering keeps every element `drop` does not hold for, as often as it occurs, and
      nothing else. */
  lemma {:induction false} WithoutMeaning<T(!new)>(s: seq<T>, drop: T -> bool)
    ensures forall x :: x in Without(s, drop) <==> x in s && !drop(x)
    ensures forall x :: !drop(x) ==> multiset(Without(s, drop))[x] == multiset(s)[x]
    ensures forall x :: drop(x) ==> multiset(Without(s, drop))[x] == 0
  {
    if s != [] {
      WithoutMeaning(s[1..], drop);
      assert s == [s[0]] + s[1..];
    }
  }

  /** Filtering distributes over concatenation: together with the one-element case this
      says that the kept elements stay in their original relative order. */
  lemma {:induction false} WithoutAppend<T(!new)>(a: seq<T>, b: seq<T>, drop: T -> bool)
    ensures Without(a + b, drop) == Without(a, drop) + Without(b, drop)
  {
    if a == [] {
      assert a + b == b;
    } else {
      var ab := a + b;
      assert ab[0] == a[0] && ab[1..] == a[1..] + b;
      WithoutAppend(a[1..], b, drop);
    }
  }

  /** When nothing matches, filtering returns the list itself. */
  lemma {:induction false} WithoutNothing<T(!new)>(s: seq<T>, drop: T -> bool)
    requires forall i | 0 <= i < |s| :: !drop(s[i])
    ensures Without(s, drop) == s
  {
    if s != [] {
      WithoutNothing(s[1..], drop);
      assert s == [s[0]] + s[1..];
    }
  }

  /** Every element that `pick` selects replaced by `f` of it, the others kept in place
      (`s.map(x => pick(x) ? f(x) : x)`). */
  function UpdateWhere<T>(s: seq<T>, pick: T -> bool, f: T -> T): (r: seq<T>)
    ensures |r| == |s|
    ensures forall i | 0 <= i < |s| :: r[i] == if pick(s[i]) then f(s[i]) else s[i]
  {
    if s == [] then [] else [if pick(s[0]) then f(s[0]) else s[0]] + UpdateWhere(s[1..], pick, f)
  }

  /** The position of the first element that `pick` selects, or `|s|` when there is none
      (`s.findIndex(pick)`, with -1 written as `|s|`). */
  function FirstIndex<T>(s: seq<T>, pick: T -> bool): (k: nat)
    ensures k <= |s|
    ensures k < |s| ==> pick(s[k])
    ensures forall j | 0 <= j < k :: !pick(s[j])
  {
    if s == [] then 0
    else if pick(s[0]) then 0
    else 1 + FirstIndex(s[1..], pick)
  }

  /** The first element that `pick` selects (`s.find(pick)`), or None. */
  function FindFirst<T>(s: seq<T>, pick: T -> bool): (r: Option<T>)
    ensures r.None? <==> forall i | 0 <= i < |s| :: !pick(s[i])
    ensures r.Some? ==> exists i | 0 <= i < |s| ::
      s[i] == r.value && pick(s[i]) && forall j | 0 <= j < i :: !pick(s[j])
  {
    var k := FirstIndex(s, pick);
    if k < |s| then Some(s[k]) else None
  }

  /** The sum of a list of amounts, added up from the front as `reduce` does. */
  function Sum(xs: seq<real>): real
  {
    if xs == [] then 0.0 else Sum(xs[..|xs| - 1]) + xs[|xs| - 1]
  }

  /** The sum of a concatenation is the sum of the parts. */
  lemma {:induction false} SumAppend(a: seq<real>, b: seq<real>)
    ensures Sum(a + b) == Sum(a) + Sum(b)
  {
    if b != [] {
      assert (a + b)[..|a + b| - 1] == a + b[..|b| - 1];
      SumAppend(a, b[..|b| - 1]);
    } else {
      assert a + b == a;
    }
  }

  /** Adding up `n` copies of the same amount gives `n` times that amount. */
  lemma {:induction false} SumConstant(xs: seq<real>, c: real)
    requires forall i | 0 <= i < |xs| :: xs[i] == c
    ensures Sum(xs) == |xs| as real * c
  {
    if xs != [] {
      SumConstant(xs[..|xs| - 1], c);
    }
  }

  /** Scaling every amount scales the sum. */
  lemma {:induction false} SumScaled(xs: seq<real>, ys: seq<real>, c: real)
    requires |xs| == |ys|
    requires forall i | 0 <= i < |xs| :: ys[i] == c * xs[i]
    ensures Sum(ys) == c * Sum(xs)
  {
    if xs != [] {
      SumScaled(xs[..|xs| - 1], ys[..|ys| - 1], c);
    }
  }

  /** `m[k] || 0`: the value of a key, 0 when it is missing. */
  function Get(m: map<string, real>, k: string): real
  {
    if k in m then m[k] else 0.0
  }

  /** Moving the first element of the unprocessed part `s` to the processed part `done`
      keeps their concatenation. */
  lemma ShiftFront<T>(done: seq<T>, x: T, s: seq<T>, rest: seq<T>, whole: seq<T>)
    requires done + s == whole && s == [x] + rest
    ensures (done + [x]) + rest == whole
  {
    assert (done + [x]) + rest == done + ([x] + rest);
  }
}
