/** Bounded histories: Python's `deque(maxlen=cap)` and JavaScript's `slice(-k)`. */
module Ring {

  /** The newest `cap` elements. */
  function Last<T>(cap: nat, s: seq<T>): (r: seq<T>)
    ensures |r| == if |s| <= cap then |s| else cap
  {
    if |s| <= cap then s else s[|s| - cap..]
  }

  /** `deque(maxlen=cap).append(x)`. */
  function Push<T>(cap: nat, s: seq<T>, x: T): seq<T> {
    Last(cap, s + [x])
  }

  /** JavaScript's `[...s.slice(-(cap - 1)), x]` is the same as the deque append. */
  lemma SliceIsPush<T>(cap: nat, s: seq<T>, x: T)
    requires 1 <= cap
    requires |s| <= cap
    ensures Last(cap - 1, s) + [x] == Push(cap, s, x)
  {
  }

  /** What a message does to a ring. */
  datatype Act<T> = Ignore | Append(x: T) | Reset

  function Do<T>(cap: nat, ring: seq<T>, act: Act<T>): (r: seq<T>)
    ensures |ring| <= cap ==> |r| <= cap
  {
    match act
    case Ignore => ring
    case Append(x) => Push(cap, ring, x)
    case Reset => []
  }

  function DoAll<T>(cap: nat, ring: seq<T>, acts: seq<Act<T>>): (r: seq<T>)
    ensures |ring| <= cap ==> |r| <= cap
  {
    if acts == [] then ring
    else Do(cap, DoAll(cap, ring, acts[..|acts| - 1]), acts[|acts| - 1])
  }

  function Appends<T>(acts: seq<Act<T>>): nat {
    if acts == [] then 0
    else Appends(acts[..|acts| - 1]) + if acts[|acts| - 1].Append? then 1 else 0
  }

  /** The newest min(k, cap) elements of both rings are the same. */
  ghost predicate SameTail<T>(cap: nat, a: seq<T>, b: seq<T>, k: nat) {
    var j := if k <= cap then k else cap;
    && j <= |a| && j <= |b|
    && Last(j, a) == Last(j, b)
  }

  lemma LastOfLast<T>(j: nat, k: nat, s: seq<T>)
    requires j <= k
    ensures Last(j, Last(k, s)) == Last(j, s)
  {
  }

  lemma LastOfAppend<T>(j: nat, s: seq<T>, x: T)
    requires j > 0
    ensures Last(j, s + [x]) == Last(j - 1, s) + [x]
  {
  }

  lemma SameTailStep<T>(cap: nat, a: seq<T>, b: seq<T>, k: nat, x: T)
    requires |a| <= cap && |b| <= cap
    requires SameTail(cap, a, b, k)
    ensures SameTail(cap, Push(cap, a, x), Push(cap, b, x), k + 1)
  {
    var j := if k <= cap then k else cap;
    var j' := if k + 1 <= cap then k + 1 else cap;
    LastOfLast(j', cap, a + [x]);
    LastOfLast(j', cap, b + [x]);
    if j' > 0 {
      LastOfAppend(j', a, x);
      LastOfAppend(j', b, x);
      LastOfLast(j' - 1, j, a);
      LastOfLast(j' - 1, j, b);
    }
  }

  /** Two rings that see the same acts become equal once `cap` elements have been appended,
      whatever they held before; one reset is enough as well. */
  lemma {:induction false} Heal<T>(cap: nat, a: seq<T>, b: seq<T>, acts: seq<Act<T>>)
    requires |a| <= cap && |b| <= cap
    requires Appends(acts) >= cap || Reset in acts
    ensures DoAll(cap, a, acts) == DoAll(cap, b, acts)
  {
    HealTail(cap, a, b, acts);
  }

  lemma {:induction false} HealTail<T>(cap: nat, a: seq<T>, b: seq<T>, acts: seq<Act<T>>)
    requires |a| <= cap && |b| <= cap
    ensures DoAll(cap, a, acts) == DoAll(cap, b, acts)
         || (Reset !in acts && SameTail(cap, DoAll(cap, a, acts), DoAll(cap, b, acts), Appends(acts)))
  {
    if acts != [] {
      var n := |acts| - 1;
      assert acts == acts[..n] + [acts[n]];
      HealTail(cap, a, b, acts[..n]);
      if acts[n].Append? && DoAll(cap, a, acts[..n]) != DoAll(cap, b, acts[..n]) {
        SameTailStep(cap, DoAll(cap, a, acts[..n]), DoAll(cap, b, acts[..n]), Appends(acts[..n]), acts[n].x);
      }
    }
  }

  lemma {:induction false} DoAllSplit<T>(cap: nat, ring: seq<T>, xs: seq<Act<T>>, ys: seq<Act<T>>)
    ensures DoAll(cap, ring, xs + ys) == DoAll(cap, DoAll(cap, ring, xs), ys)
    decreases |ys|
  {
    if ys == [] {
      assert xs + ys == xs;
    } else {
      var n := |ys| - 1;
      assert (xs + ys)[..|xs + ys| - 1] == xs + ys[..n];
      DoAllSplit(cap, ring, xs, ys[..n]);
    }
  }
}
