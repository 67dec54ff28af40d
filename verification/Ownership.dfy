/** Which pods belong to a Deployment, by name alone, and the rollout verdict built on it
    (frontend/src/pages.tsx). */
module Ownership {
  import opened Options

  /** `s.split("-")`. */
  function Split(s: string): (parts: seq<string>)
    ensures |parts| >= 1
  {
    if s == "" then [""]
    else
      var rest := Split(s[1..]);
      if s[0] == '-' then [""] + rest else [[s[0]] + rest[0]] + rest[1..]
  }

  function Hyphens(s: string): nat {
    if s == "" then 0 else (if s[0] == '-' then 1 else 0) + Hyphens(s[1..])
  }

  lemma {:induction false} SplitLength(s: string)
    ensures |Split(s)| == Hyphens(s) + 1
  {
    if s != "" {
      SplitLength(s[1..]);
    }
  }

  lemma {:induction false} HyphensAdd(a: string, b: string)
    ensures Hyphens(a + b) == Hyphens(a) + Hyphens(b)
  {
    if a == "" {
      assert a + b == b;
    } else {
      assert (a + b)[1..] == a[1..] + b;
      HyphensAdd(a[1..], b);
    }
  }

  lemma {:induction false} HyphenFree(s: string)
    ensures Hyphens(s) == 0 <==> '-' !in s
  {
    if s != "" {
      HyphenFree(s[1..]);
      assert s == [s[0]] + s[1..];
    }
  }

  /** The filter of `rolloutDrift`, on names. */
  predicate Claims(deployment: string, pod: string) {
    var prefix := deployment + "-";
    prefix <= pod && |Split(pod[|prefix|..])| == 2
  }

  /** A name the Deployment controller gives: the Deployment's, a hash, a suffix. */
  ghost predicate Generated(deployment: string, pod: string) {
    exists hash: string, suffix: string ::
      '-' !in hash && '-' !in suffix && pod == NameOf(deployment, hash, suffix)
  }

  function NameOf(deployment: string, hash: string, suffix: string): string {
    deployment + "-" + hash + "-" + suffix
  }

  lemma {:induction false} OneHyphen(s: string) returns (before: string, after: string)
    requires Hyphens(s) == 1
    ensures '-' !in before && '-' !in after && s == before + "-" + after
  {
    if s[0] == '-' {
      before, after := "", s[1..];
      HyphenFree(after);
      assert s == [s[0]] + s[1..];
    } else {
      before, after := OneHyphen(s[1..]);
      before := [s[0]] + before;
      assert s == [s[0]] + s[1..];
    }
  }

  lemma GeneratedIsClaimed(deployment: string, hash: string, suffix: string)
    requires '-' !in hash && '-' !in suffix
    ensures Claims(deployment, NameOf(deployment, hash, suffix))
  {
    var rest := hash + "-" + suffix;
    assert NameOf(deployment, hash, suffix) == deployment + "-" + rest;
    assert (deployment + "-" + rest)[|deployment| + 1..] == rest;
    HyphensAdd(hash, "-" + suffix);
    HyphensAdd("-", suffix);
    assert rest == hash + ("-" + suffix);
    HyphenFree(hash);
    HyphenFree(suffix);
    SplitLength(rest);
  }

  /** A Deployment, whatever hyphens its name has, claims exactly the pods named after it. */
  lemma ClaimsExactlyGenerated(deployment: string, pod: string)
    ensures Claims(deployment, pod) <==> Generated(deployment, pod)
  {
    if Claims(deployment, pod) {
      var prefix := deployment + "-";
      var rest := pod[|prefix|..];
      SplitLength(rest);
      var hash, suffix := OneHyphen(rest);
      assert pod == prefix + rest == NameOf(deployment, hash, suffix);
    }
    if Generated(deployment, pod) {
      var hash: string, suffix: string :|
        '-' !in hash && '-' !in suffix && pod == NameOf(deployment, hash, suffix);
      GeneratedIsClaimed(deployment, hash, suffix);
    }
  }

  lemma ShorterClaimsLess(short: string, long: string, pod: string)
    requires |short| < |long| && Claims(long, pod)
    ensures !Claims(short, pod)
  {
    if short + "-" <= pod {
      var rest, inner := pod[|short| + 1..], pod[|long| + 1..];
      var between := pod[|short| + 1..|long|];
      assert pod[|long|] == (long + "-")[|long|];
      assert rest == between + "-" + inner;
      HyphensAdd(between + "-", inner);
      HyphensAdd(between, "-");
      SplitLength(rest);
      SplitLength(inner);
    }
  }

  /** No pod name is claimed by two Deployment names. */
  lemma UniqueOwner(a: string, b: string, pod: string)
    requires Claims(a, pod) && Claims(b, pod)
    ensures a == b
  {
    if |a| < |b| {
      ShorterClaimsLess(a, b, pod);
    } else if |b| < |a| {
      ShorterClaimsLess(b, a, pod);
    } else {
      assert a == pod[..|a|] && b == pod[..|b|];
    }
  }

  // ---------------- rolloutDrift ----------------

  datatype Deployment = Deployment(namespace: string, name: string, updated: int, replicas: int)

  datatype Pod = Pod(namespace: string, name: string, images: Option<seq<string>>)

  datatype Drift = NoDrift | NotUpdated(updated: int, replicas: int) | MixedImages(images: seq<string>)

  predicate Owns(d: Deployment, p: Pod) {
    p.namespace == d.namespace && Claims(d.name, p.name)
  }

  function OwnedImages(d: Deployment, pods: seq<Pod>): seq<string> {
    if pods == [] then [] else
      var p := pods[|pods| - 1];
      OwnedImages(d, pods[..|pods| - 1]) + (if Owns(d, p) && p.images.Some? then p.images.value else [])
  }

  /** The elements of a JavaScript `Set` in insertion order. */
  function Distinct(s: seq<string>): seq<string> {
    if s == [] then [] else
      var before := Distinct(s[..|s| - 1]);
      if s[|s| - 1] in before then before else before + [s[|s| - 1]]
  }

  function RolloutDrift(d: Deployment, pods: seq<Pod>): Drift {
    if d.updated < d.replicas then NotUpdated(d.updated, d.replicas)
    else
      var images := Distinct(OwnedImages(d, pods));
      if |images| > 1 then MixedImages(images) else NoDrift
  }

  /** Some pod in the Deployment's namespace, with a name that its controller gives, runs the
      image. */
  ghost predicate Runs(d: Deployment, pods: seq<Pod>, image: string) {
    exists p :: p in pods && IsOf(d, p) && p.images.Some? && image in p.images.value
  }

  ghost predicate IsOf(d: Deployment, p: Pod) {
    p.namespace == d.namespace && Generated(d.name, p.name)
  }

  lemma {:induction false} OwnedImagesAre(d: Deployment, pods: seq<Pod>, image: string)
    ensures image in OwnedImages(d, pods) <==> Runs(d, pods, image)
  {
    if pods != [] {
      hide Claims, Generated;
      var n := |pods| - 1;
      OwnedImagesAre(d, pods[..n], image);
      assert pods == pods[..n] + [pods[n]];
      ClaimsExactlyGenerated(d.name, pods[n].name);
      if Owns(d, pods[n]) && pods[n].images.Some? && image in pods[n].images.value {
        assert pods[n] in pods;
      }
    }
  }

  lemma {:induction false} DistinctIs(s: seq<string>)
    ensures forall x :: x in Distinct(s) <==> x in s
    ensures forall i, j :: 0 <= i < j < |Distinct(s)| ==> Distinct(s)[i] != Distinct(s)[j]
    ensures s != [] ==> Distinct(s[..|s| - 1]) <= Distinct(s)
  {
    if s != [] {
      DistinctIs(s[..|s| - 1]);
      assert s == s[..|s| - 1] + [s[|s| - 1]];
    }
  }

  /** Drift is reported exactly when replicas still wait for the current revision or the
      Deployment's pods, taken together, run two different images. */
  lemma DriftIsExact(d: Deployment, pods: seq<Pod>)
    ensures RolloutDrift(d, pods) == NoDrift <==>
      d.updated >= d.replicas && forall x, y :: Runs(d, pods, x) && Runs(d, pods, y) ==> x == y
    ensures d.updated < d.replicas ==> RolloutDrift(d, pods) == NotUpdated(d.updated, d.replicas)
    ensures RolloutDrift(d, pods).MixedImages? ==>
      forall x :: x in RolloutDrift(d, pods).images <==> Runs(d, pods, x)
  {
    var all := OwnedImages(d, pods);
    var images := Distinct(all);
    DistinctIs(all);
    forall x ensures x in images <==> Runs(d, pods, x) {
      OwnedImagesAre(d, pods, x);
    }
    if |images| > 1 {
      assert images[0] in images && images[1] in images;
    } else {
      assert forall x :: x in images ==> x == images[0];
    }
  }

  /** Pods of another Deployment, however its name starts, have no influence. */
  lemma {:induction false} OtherPodsDoNotMatter(d: Deployment, other: Deployment, pods: seq<Pod>, p: Pod)
    requires other.name != d.name && Owns(other, p)
    ensures RolloutDrift(d, pods + [p]) == RolloutDrift(d, pods)
  {
    if Owns(d, p) {
      UniqueOwner(d.name, other.name, p.name);
    }
    var more := pods + [p];
    assert more[..|more| - 1] == pods && more[|more| - 1] == p;
    assert OwnedImages(d, more) == OwnedImages(d, pods);
  }

  /** One fully updated pod with a second container image is reported as a mixed rollout. */
  lemma SidecarLooksLikeDrift()
    ensures RolloutDrift(Deployment("ns", "web", 1, 1), [Pod("ns", "web-5d-x", Some(["app", "proxy"]))]).MixedImages?
  {
    var d := Deployment("ns", "web", 1, 1);
    var p := Pod("ns", "web-5d-x", Some(["app", "proxy"]));
    assert p.name == NameOf("web", "5d", "x");
    GeneratedIsClaimed("web", "5d", "x");
    assert p in [p] && IsOf(d, p);
    assert Runs(d, [p], "app") && Runs(d, [p], "proxy");
    DriftIsExact(d, [p]);
  }
}
