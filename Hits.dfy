/**
  Rays and intersection records (raylib/Ray.cs, raylib/IntersectionInfo.cs), and the
  "keep the nearest hit" rule shared by the brute-force scan of the tracer and the
  leaf scan of the KD-tree.
 */
module Hits {
  import opened Vectors
  import opened Colors
  import opened Limits

  datatype Ray = Ray(position: Vec, direction: Vec)

  datatype IntersectionInfo =
    IntersectionInfo(color: Color, distance: real, normal: Vec, position: Vec, elementId: int)

  /** The parameterless constructor: black, distance double.MaxValue, element 0. */
  const NoHit := IntersectionInfo(Black, MaxValue, Origin, Origin, 0)

  /** A record is a hit exactly when its Id differs from the no-hit record's. */
  function IsHit(info: IntersectionInfo): (r: bool)
    ensures r <==> info.elementId != NoHit.elementId
    ensures info == NoHit ==> !r
  {
    info.elementId != 0
  }

  /** The no-hit record is not a hit, and every finite distance below double.MaxValue beats it. */
  lemma NoHitFacts(d: real)
    ensures !IsHit(NoHit) && NoHit.elementId == 0
    ensures d < MaxValue ==> d < NoHit.distance
  {
  }

  /** The full constructor stores what it is given, and IsHit depends on the id alone. */
  lemma ConstructorStores(c: Color, d: real, n: Vec, p: Vec, id: int)
    ensures var i := IntersectionInfo(c, d, n, p, id);
      i.color == c && i.distance == d && i.normal == n && i.position == p && i.elementId == id
      && (IsHit(i) <==> id != 0)
  {
  }

  /** A candidate the scans may keep: a hit in front of the ray origin. */
  predicate Qualifies(info: IntersectionInfo) {
    IsHit(info) && info.distance >= 0.0
  }

  /** One step of the scans: replace the best so far only by a qualifying, strictly nearer hit. */
  function Better(best: IntersectionInfo, info: IntersectionInfo): (r: IntersectionInfo)
    ensures r == best || r == info
    ensures r == info <== Qualifies(info) && info.distance < best.distance
    ensures r == best <== !(Qualifies(info) && info.distance < best.distance)
    ensures r.distance <= best.distance
  {
    if IsHit(info) && info.distance < best.distance && info.distance >= 0.0 then info else best
  }

  /** The scan result over candidate records in order, starting from no-hit. */
  function Nearest(s: seq<IntersectionInfo>): (r: IntersectionInfo)
    ensures r.distance <= MaxValue
    ensures r == NoHit || (r in s && Qualifies(r))
  {
    if s == [] then NoHit else Better(Nearest(s[..|s| - 1]), s[|s| - 1])
  }

  /** No qualifying record of s is nearer than double.MaxValue. */
  predicate NoneBelowMax(s: seq<IntersectionInfo>) {
    forall j :: 0 <= j < |s| && Qualifies(s[j]) ==> s[j].distance >= MaxValue
  }

  /** s[k] qualifies, is nearer than double.MaxValue, strictly nearer than every earlier
      qualifying record and no farther than every later one. */
  predicate IsFirstMinimum(s: seq<IntersectionInfo>, k: int) {
    0 <= k < |s| && Qualifies(s[k]) && s[k].distance < MaxValue
    && (forall j :: 0 <= j < k && Qualifies(s[j]) ==> s[j].distance > s[k].distance)
    && (forall j :: k <= j < |s| && Qualifies(s[j]) ==> s[j].distance >= s[k].distance)
  }

  /** Nearest keeps the FIRST qualifying record of least distance (returned as its index k),
      and is no-hit (k = -1) when no qualifying record is nearer than double.MaxValue. */
  lemma {:induction false} NearestIsFirstMinimum(s: seq<IntersectionInfo>) returns (k: int)
    ensures (k == -1 && Nearest(s) == NoHit && NoneBelowMax(s))
         || (IsFirstMinimum(s, k) && Nearest(s) == s[k])
  {
    if s == [] {
      return -1;
    }
    var p := s[..|s| - 1];
    var last := s[|s| - 1];
    var k0 := NearestIsFirstMinimum(p);
    var q := Nearest(p);
    assert forall j :: 0 <= j < |p| ==> s[j] == p[j];
    if Qualifies(last) && last.distance < q.distance {
      k := |s| - 1;
      assert Nearest(s) == s[k];
      if k0 == -1 {
        NewMinimumAfterNone(s, p);
      } else {
        NewMinimumAfterOld(s, p, k0);
      }
    } else {
      assert Nearest(s) == q;
      k := k0;
      if k0 == -1 {
        assert NoneBelowMax(s);
      } else {
        OldMinimumKept(s, p, k0);
      }
    }
  }

  lemma NewMinimumAfterNone(s: seq<IntersectionInfo>, p: seq<IntersectionInfo>)
    requires |s| > 0 && p == s[..|s| - 1] && NoneBelowMax(p)
    requires Qualifies(s[|s| - 1]) && s[|s| - 1].distance < MaxValue
    ensures IsFirstMinimum(s, |s| - 1)
  {
    forall j | 0 <= j < |s| - 1 && Qualifies(s[j]) ensures s[j].distance > s[|s| - 1].distance {
      assert s[j] == p[j];
    }
  }

  lemma NewMinimumAfterOld(s: seq<IntersectionInfo>, p: seq<IntersectionInfo>, k0: int)
    requires |s| > 0 && p == s[..|s| - 1] && IsFirstMinimum(p, k0)
    requires Qualifies(s[|s| - 1]) && s[|s| - 1].distance < p[k0].distance
    ensures IsFirstMinimum(s, |s| - 1)
  {
    forall j | 0 <= j < |s| - 1 && Qualifies(s[j]) ensures s[j].distance > s[|s| - 1].distance {
      assert s[j] == p[j];
    }
  }

  lemma OldMinimumKept(s: seq<IntersectionInfo>, p: seq<IntersectionInfo>, k0: int)
    requires |s| > 0 && p == s[..|s| - 1] && IsFirstMinimum(p, k0)
    requires !(Qualifies(s[|s| - 1]) && s[|s| - 1].distance < p[k0].distance)
    ensures IsFirstMinimum(s, k0) && s[k0] == p[k0]
  {
    forall j | 0 <= j < |s| && Qualifies(s[j]) && j != |s| - 1 ensures s[j] == p[j] {
    }
  }

  /** The scan result is never farther than any qualifying record. */
  lemma NearestNoFartherThanQualifying(s: seq<IntersectionInfo>, j: int)
    requires 0 <= j < |s| && Qualifies(s[j])
    ensures Nearest(s).distance <= s[j].distance
  {
    var k := NearestIsFirstMinimum(s);
    if k != -1 {
      assert k <= j || j < k;
    }
  }
}
