/** The staircase of grid faces between a masked body and the fluid, and the loads a pressure
    on it integrates to.  Exact reals; the free stream's direction enters as a cosine and a sine. */
module Staircase {
  import opened RealMath
  import opened Sums
  import opened Wrappers

  datatype Direction = East | West | North | South

  /** One face: its midpoint, its outward unit normal, its length, and the fluid node beside it. */
  datatype Face = Face(
    x: real, y: real, normalX: real, normalY: real, length: real, row: nat, column: nat)

  /** A body on a lattice: one flag per node, and the node coordinates along each axis. */
  datatype Body = Body(mask: seq<seq<bool>>, x: seq<real>, y: seq<real>)

  ghost predicate Uniform(axis: seq<real>, step: real) {
    && |axis| >= 2
    && forall k :: 0 <= k < |axis| ==> axis[k] == axis[0] + k as real * step
  }

  predicate Shaped(body: Body) {
    && |body.x| >= 2 && |body.y| >= 2
    && |body.mask| == |body.y|
    && forall i :: 0 <= i < |body.mask| ==> |body.mask[i]| == |body.x|
  }

  predicate OnGrid(body: Body, i: int, j: int) {
    0 <= i < |body.y| && 0 <= j < |body.x|
  }

  predicate Masked(body: Body, i: int, j: int)
    requires Shaped(body)
  {
    OnGrid(body, i, j) && body.mask[i][j]
  }

  function RowStep(d: Direction): int {
    match d case North => 1 case South => -1 case _ => 0
  }

  function ColumnStep(d: Direction): int {
    match d case East => 1 case West => -1 case _ => 0
  }

  /** A body node whose neighbour in direction `d` is on the grid and is fluid. */
  predicate Exposed(body: Body, d: Direction, i: int, j: int)
    requires Shaped(body)
  {
    var ni, nj := i + RowStep(d), j + ColumnStep(d);
    Masked(body, i, j) && OnGrid(body, ni, nj) && !Masked(body, ni, nj)
  }

  function FaceLength(body: Body, d: Direction): real
    requires Shaped(body)
  {
    if d.East? || d.West? then body.y[1] - body.y[0] else body.x[1] - body.x[0]
  }

  function FaceAt(body: Body, d: Direction, i: int, j: int): Face
    requires Shaped(body) && Exposed(body, d, i, j)
  {
    var ni, nj := i + RowStep(d), j + ColumnStep(d);
    Face(
      0.5 * (body.x[j] + body.x[nj]), 0.5 * (body.y[i] + body.y[ni]),
      ColumnStep(d) as real, RowStep(d) as real, FaceLength(body, d), ni, nj)
  }

  // --------------------------------------------------------------------- the surface

  function RowFaces(body: Body, d: Direction, i: int, n: nat): seq<Face>
    requires Shaped(body)
  {
    if n == 0 then []
    else RowFaces(body, d, i, n - 1) + (if Exposed(body, d, i, n - 1) then [FaceAt(body, d, i, n - 1)] else [])
  }

  function DirectionFaces(body: Body, d: Direction, m: nat): seq<Face>
    requires Shaped(body)
  {
    if m == 0 then []
    else DirectionFaces(body, d, m - 1) + RowFaces(body, d, m - 1, |body.x|)
  }

  /** The whole staircase, direction by direction and in row-major order within each. */
  function Surface(body: Body): seq<Face>
    requires Shaped(body)
  {
    DirectionFaces(body, East, |body.y|) + DirectionFaces(body, West, |body.y|)
    + DirectionFaces(body, North, |body.y|) + DirectionFaces(body, South, |body.y|)
  }

  predicate HasBody(body: Body)
    requires Shaped(body)
  {
    exists i, j :: 0 <= i < |body.y| && 0 <= j < |body.x| && body.mask[i][j]
  }

  // The walk in terms of the flags alone: the face from each body node to each fluid node beside it.

  ghost predicate Wet(body: Body, i: nat, j: nat, ni: nat, nj: nat) {
    && i < |body.mask| && j < |body.mask[i]| && body.mask[i][j]
    && ni < |body.mask| && nj < |body.mask[ni]| && !body.mask[ni][nj]
    && ((i == ni && (nj == j + 1 || j == nj + 1)) || (j == nj && (ni == i + 1 || i == ni + 1)))
  }

  /** Half way from (i, j) to (ni, nj), facing that way, and as long as the first cell across it. */
  ghost predicate IsFaceBetween(body: Body, f: Face, i: nat, j: nat, ni: nat, nj: nat) {
    && |body.x| >= 2 && |body.y| >= 2
    && j < |body.x| && nj < |body.x| && 2.0 * f.x == body.x[j] + body.x[nj]
    && i < |body.y| && ni < |body.y| && 2.0 * f.y == body.y[i] + body.y[ni]
    && f.normalX == nj as real - j as real && f.normalY == ni as real - i as real
    && f.length == (if i == ni then body.y[1] - body.y[0] else body.x[1] - body.x[0])
    && f.row == ni && f.column == nj
  }

  ghost predicate IsWetFace(body: Body, f: Face) {
    exists i: nat, j: nat :: Wet(body, i, j, f.row, f.column) && IsFaceBetween(body, f, i, j, f.row, f.column)
  }

  ghost predicate HasFace(body: Body, faces: seq<Face>, i: nat, j: nat, ni: nat, nj: nat) {
    exists k :: 0 <= k < |faces| && IsFaceBetween(body, faces[k], i, j, ni, nj)
  }

  /** Exactly the wetted faces, each once. */
  ghost predicate IsWettedSurface(body: Body, faces: seq<Face>) {
    && (forall k :: 0 <= k < |faces| ==> IsWetFace(body, faces[k]))
    && (forall i: nat, j: nat, ni: nat, nj: nat :: Wet(body, i, j, ni, nj) ==> HasFace(body, faces, i, j, ni, nj))
    && (forall k, m :: 0 <= k < m < |faces| ==> faces[k] != faces[m])
  }

  lemma ExposedIsWet(body: Body, d: Direction, i: nat, j: nat)
    requires Shaped(body) && Exposed(body, d, i, j)
    ensures var f := FaceAt(body, d, i, j);
            && f.row == i + RowStep(d) && f.column == j + ColumnStep(d)
            && Wet(body, i, j, f.row, f.column) && IsFaceBetween(body, f, i, j, f.row, f.column)
  {
  }

  lemma WetIsExposed(body: Body, i: nat, j: nat, ni: nat, nj: nat)
    requires Shaped(body) && Wet(body, i, j, ni, nj)
    ensures exists d :: Exposed(body, d, i, j) && ni == i + RowStep(d) && nj == j + ColumnStep(d)
  {
    var d := if nj == j + 1 then East else if j == nj + 1 then West else if ni == i + 1 then North else South;
    assert Exposed(body, d, i, j);
  }

  ghost predicate ComesFrom(body: Body, d: Direction, f: Face, top: int, bottom: int, n: int)
    requires Shaped(body)
  {
    var i, j := f.row - RowStep(d), f.column - ColumnStep(d);
    top <= i < bottom && 0 <= j < n && Exposed(body, d, i, j) && f == FaceAt(body, d, i, j)
  }

  ghost predicate Found(body: Body, d: Direction, faces: seq<Face>, i: int, j: int)
    requires Shaped(body)
  {
    Exposed(body, d, i, j) ==> FaceAt(body, d, i, j) in faces
  }

  /** The faces of one direction of the rows from `top` to `bottom`, of the first `n` nodes of each. */
  ghost predicate FacesOf(body: Body, d: Direction, faces: seq<Face>, top: int, bottom: int, n: int)
    requires Shaped(body)
  {
    && (forall k :: 0 <= k < |faces| ==> ComesFrom(body, d, faces[k], top, bottom, n))
    && (forall i, j :: top <= i < bottom && 0 <= j < n ==> Found(body, d, faces, i, j))
    && (forall k, m :: 0 <= k < m < |faces| ==> faces[k] != faces[m])
  }

  lemma ApartWithoutSharedRow(body: Body, d: Direction, f: Face, g: Face, top: int, middle: int, bottom: int, n: int)
    requires Shaped(body) && ComesFrom(body, d, f, top, middle, n) && ComesFrom(body, d, g, middle, bottom, n)
    ensures f != g
    ensures ComesFrom(body, d, f, top, bottom, n) || middle > bottom
    ensures ComesFrom(body, d, g, top, bottom, n) || top > middle
  {
    hide Exposed, FaceAt;
  }

  lemma RowsWalked(
    body: Body, d: Direction, upper: seq<Face>, lower: seq<Face>, top: int, middle: int, bottom: int, n: int)
    requires Shaped(body) && top <= middle <= bottom
    requires FacesOf(body, d, upper, top, middle, n) && FacesOf(body, d, lower, middle, bottom, n)
    ensures FacesOf(body, d, upper + lower, top, bottom, n)
  {
    var all := upper + lower;
    forall k, m | 0 <= k < |upper| && 0 <= m < |lower|
      ensures upper[k] != lower[m]
      ensures ComesFrom(body, d, upper[k], top, bottom, n)
    {
      ApartWithoutSharedRow(body, d, upper[k], lower[m], top, middle, bottom, n);
    }
    forall i, j | top <= i < bottom && 0 <= j < n
      ensures Found(body, d, all, i, j)
    {
      assert Found(body, d, if i < middle then upper else lower, i, j);
    }
    forall k | 0 <= k < |all|
      ensures ComesFrom(body, d, all[k], top, bottom, n)
    {
      assert ComesFrom(body, d, all[k], if k < |upper| then top else middle, if k < |upper| then middle else bottom, n);
      hide Exposed, FaceAt;
    }
    hide ComesFrom, Found, Exposed, FaceAt;
  }

  lemma WidensBy(body: Body, d: Direction, f: Face, i: int, n: nat)
    requires Shaped(body) && ComesFrom(body, d, f, i, i + 1, n)
    ensures ComesFrom(body, d, f, i, i + 1, n + 1)
    ensures Exposed(body, d, i, n) ==> f != FaceAt(body, d, i, n)
  {
    assert Exposed(body, d, i, n) ==> FaceAt(body, d, i, n).column - ColumnStep(d) == n;
    hide Exposed, FaceAt;
  }

  lemma ComesFromItself(body: Body, d: Direction, i: int, n: nat)
    requires Shaped(body) && Exposed(body, d, i, n)
    ensures ComesFrom(body, d, FaceAt(body, d, i, n), i, i + 1, n + 1)
  {
    var f := FaceAt(body, d, i, n);
    assert f.row - RowStep(d) == i && f.column - ColumnStep(d) == n;
    hide Exposed, FaceAt;
  }

  lemma OneNodeWalked(body: Body, d: Direction, before: seq<Face>, i: int, n: nat)
    requires Shaped(body) && FacesOf(body, d, before, i, i + 1, n)
    ensures FacesOf(body, d, before + (if Exposed(body, d, i, n) then [FaceAt(body, d, i, n)] else []), i, i + 1, n + 1)
  {
    hide Exposed, FaceAt, ComesFrom;
    var after := before + (if Exposed(body, d, i, n) then [FaceAt(body, d, i, n)] else []);
    if Exposed(body, d, i, n) {
      ComesFromItself(body, d, i, n);
      assert after[|before|] == FaceAt(body, d, i, n);
    }
    forall k | 0 <= k < |before|
      ensures ComesFrom(body, d, before[k], i, i + 1, n + 1)
      ensures Exposed(body, d, i, n) ==> before[k] != FaceAt(body, d, i, n)
    {
      WidensBy(body, d, before[k], i, n);
    }
    forall j | 0 <= j < n + 1
      ensures Found(body, d, after, i, j)
    {
      assert j < n ==> Found(body, d, before, i, j);
    }
  }

  lemma {:induction false} RowWalked(body: Body, d: Direction, i: int, n: nat)
    requires Shaped(body)
    ensures FacesOf(body, d, RowFaces(body, d, i, n), i, i + 1, n)
  {
    hide ComesFrom, Found, Exposed, FaceAt;
    if n > 0 {
      RowWalked(body, d, i, n - 1);
      OneNodeWalked(body, d, RowFaces(body, d, i, n - 1), i, n - 1);
    }
  }

  lemma {:induction false} DirectionWalked(body: Body, d: Direction, m: nat)
    requires Shaped(body)
    ensures FacesOf(body, d, DirectionFaces(body, d, m), 0, m, |body.x|)
  {
    hide ComesFrom, Found, Exposed, FaceAt, RowFaces;
    if m > 0 {
      DirectionWalked(body, d, m - 1);
      RowWalked(body, d, m - 1, |body.x|);
      hide FacesOf;
      RowsWalked(body, d, DirectionFaces(body, d, m - 1), RowFaces(body, d, m - 1, |body.x|), 0, m - 1, m, |body.x|);
    }
  }

  /** The faces that look in one direction are wetted and look that way. */
  ghost predicate Looks(body: Body, d: Direction, f: Face) {
    IsWetFace(body, f) && f.normalX == ColumnStep(d) as real && f.normalY == RowStep(d) as real
  }

  lemma WalkedLooks(body: Body, d: Direction, f: Face)
    requires Shaped(body) && ComesFrom(body, d, f, 0, |body.y|, |body.x|)
    ensures Looks(body, d, f)
  {
    ExposedIsWet(body, d, f.row - RowStep(d), f.column - ColumnStep(d));
    hide Wet, IsFaceBetween, Exposed;
  }

  lemma OneDirection(body: Body, d: Direction)
    requires Shaped(body)
    ensures var faces := DirectionFaces(body, d, |body.y|);
            && (forall k :: 0 <= k < |faces| ==> Looks(body, d, faces[k]))
            && (forall k, m :: 0 <= k < m < |faces| ==> faces[k] != faces[m])
  {
    DirectionWalked(body, d, |body.y|);
    var faces := DirectionFaces(body, d, |body.y|);
    hide DirectionFaces, Looks, ComesFrom, Found;
    forall k | 0 <= k < |faces|
      ensures Looks(body, d, faces[k])
    {
      WalkedLooks(body, d, faces[k]);
    }
  }

  lemma Included(body: Body, d: Direction, f: Face)
    requires Shaped(body) && f in DirectionFaces(body, d, |body.y|)
    ensures f in Surface(body)
  {
    hide DirectionFaces;
  }

  lemma WetIsFound(body: Body, i: nat, j: nat, ni: nat, nj: nat)
    requires Shaped(body) && Wet(body, i, j, ni, nj)
    ensures HasFace(body, Surface(body), i, j, ni, nj)
  {
    WetIsExposed(body, i, j, ni, nj);
    hide Wet, IsFaceBetween;
    var d :| Exposed(body, d, i, j) && ni == i + RowStep(d) && nj == j + ColumnStep(d);
    assert OnGrid(body, i, j);
    ExposedIsWet(body, d, i, j);
    DirectionWalked(body, d, |body.y|);
    hide Exposed, FaceAt, Surface, DirectionFaces, ComesFrom;
    assert Found(body, d, DirectionFaces(body, d, |body.y|), i, j);
    var f := FaceAt(body, d, i, j);
    Included(body, d, f);
    var k :| 0 <= k < |Surface(body)| && Surface(body)[k] == f;
  }

  lemma DirectionsDiffer(body: Body, d: Direction, d': Direction, f: Face, f': Face)
    requires d != d' && Looks(body, d, f) && Looks(body, d', f')
    ensures f != f'
  {
    hide IsWetFace;
  }

  /** Joins the faces of two groups of directions. */
  lemma Joined(
    body: Body, left: seq<Face>, right: seq<Face>, kinds: set<Direction>, d: Direction)
    requires d !in kinds
    requires forall k :: 0 <= k < |left| ==> LooksAny(body, kinds, left[k])
    requires forall k :: 0 <= k < |right| ==> Looks(body, d, right[k])
    requires forall k, m :: 0 <= k < m < |left| ==> left[k] != left[m]
    requires forall k, m :: 0 <= k < m < |right| ==> right[k] != right[m]
    ensures forall k :: 0 <= k < |left + right| ==> LooksAny(body, kinds + {d}, (left + right)[k])
    ensures forall k, m :: 0 <= k < m < |left + right| ==> (left + right)[k] != (left + right)[m]
  {
    hide Looks;
    forall k, m | 0 <= k < |left| && 0 <= m < |right|
      ensures left[k] != right[m]
    {
      var d' :| d' in kinds && Looks(body, d', left[k]);
      DirectionsDiffer(body, d', d, left[k], right[m]);
    }
  }

  ghost predicate LooksAny(body: Body, kinds: set<Direction>, f: Face) {
    exists d :: d in kinds && Looks(body, d, f)
  }

  /** The walk finds exactly the wetted faces and none twice. */
  lemma SurfaceIsWetted(body: Body)
    requires Shaped(body)
    ensures IsWettedSurface(body, Surface(body))
  {
    var e, w := DirectionFaces(body, East, |body.y|), DirectionFaces(body, West, |body.y|);
    var n, s := DirectionFaces(body, North, |body.y|), DirectionFaces(body, South, |body.y|);
    forall d {
      OneDirection(body, d);
    }
    hide DirectionFaces, Looks, Wet, IsWetFace;
    Joined(body, [], e, {}, East);
    assert [] + e == e;
    Joined(body, e, w, {East}, West);
    Joined(body, e + w, n, {East, West}, North);
    Joined(body, e + w + n, s, {East, West, North}, South);
    forall k | 0 <= k < |Surface(body)|
      ensures IsWetFace(body, Surface(body)[k])
    {
      var d :| Looks(body, d, Surface(body)[k]);
      LooksWet(body, d, Surface(body)[k]);
    }
    forall i: nat, j: nat, ni: nat, nj: nat | Wet(body, i, j, ni, nj)
      ensures HasFace(body, Surface(body), i, j, ni, nj)
    {
      WetIsFound(body, i, j, ni, nj);
    }
  }

  lemma LooksWet(body: Body, d: Direction, f: Face)
    requires Looks(body, d, f)
    ensures IsWetFace(body, f)
  {
  }

  /** With no wetted face every flag is the first one. */
  lemma {:induction false} DryIsUniform(body: Body, i: nat, j: nat)
    requires Shaped(body) && i < |body.y| && j < |body.x|
    requires forall i: nat, j: nat, ni: nat, nj: nat :: !Wet(body, i, j, ni, nj)
    ensures body.mask[i][j] == body.mask[0][0]
    decreases i + j
  {
    if i > 0 {
      DryIsUniform(body, i - 1, j);
      assert !Wet(body, i, j, i - 1, j) && !Wet(body, i - 1, j, i, j);
    } else if j > 0 {
      DryIsUniform(body, i, j - 1);
      assert !Wet(body, i, j, i, j - 1) && !Wet(body, i, j - 1, i, j);
    }
  }

  /** There is no face exactly when the whole mask is body or the whole mask is fluid. */
  lemma NoFaceExactly(body: Body)
    requires Shaped(body)
    ensures Surface(body) == [] <==>
              || (forall i, j :: 0 <= i < |body.y| && 0 <= j < |body.x| ==> body.mask[i][j])
              || (forall i, j :: 0 <= i < |body.y| && 0 <= j < |body.x| ==> !body.mask[i][j])
  {
    SurfaceIsWetted(body);
    hide Surface;
    if Surface(body) == [] {
      forall i: nat, j: nat | i < |body.y| && j < |body.x|
        ensures body.mask[i][j] == body.mask[0][0]
      {
        DryIsUniform(body, i, j);
      }
    } else {
      assert IsWetFace(body, Surface(body)[0]);
    }
  }

  datatype Unavailable = EmptyMask | NoWettedSurface

  /** Walks the mask boundary and collects its faces. */
  method BodySurface(body: Body) returns (surface: Result<seq<Face>, Unavailable>)
    requires Shaped(body)
    ensures surface == if !HasBody(body) then Err(EmptyMask)
                       else if Surface(body) == [] then Err(NoWettedSurface)
                       else Ok(Surface(body))
    ensures surface == Err(EmptyMask) <==>
              forall i, j :: 0 <= i < |body.y| && 0 <= j < |body.x| ==> !body.mask[i][j]
    ensures surface == Err(NoWettedSurface) <==>
              forall i, j :: 0 <= i < |body.y| && 0 <= j < |body.x| ==> body.mask[i][j]
    ensures surface.Ok? ==> IsWettedSurface(body, surface.value)
  {
    NoFaceExactly(body);
    SurfaceIsWetted(body);
    assert |body.mask[0]| >= 2;
    if !HasBody(body) {
      return Err(EmptyMask);
    }
    var directions := [East, West, North, South];
    var faces: seq<Face> := [];
    for k := 0 to 4
      invariant k == 0 ==> faces == []
      invariant k == 1 ==> faces == DirectionFaces(body, East, |body.y|)
      invariant k == 2 ==> faces == DirectionFaces(body, East, |body.y|) + DirectionFaces(body, West, |body.y|)
      invariant k == 3 ==>
        faces == DirectionFaces(body, East, |body.y|) + DirectionFaces(body, West, |body.y|)
                 + DirectionFaces(body, North, |body.y|)
      invariant k == 4 ==> faces == Surface(body)
    {
      hide DirectionFaces, IsWettedSurface;
      var found := CollectDirection(body, directions[k]);
      faces := faces + found;
    }
    return if faces == [] then Err(NoWettedSurface) else Ok(faces);
  }

  method CollectDirection(body: Body, d: Direction) returns (faces: seq<Face>)
    requires Shaped(body)
    ensures faces == DirectionFaces(body, d, |body.y|)
  {
    faces := [];
    for i := 0 to |body.y|
      invariant faces == DirectionFaces(body, d, i)
    {
      ghost var above := faces;
      for j := 0 to |body.x|
        invariant faces == above + RowFaces(body, d, i, j)
      {
        if Exposed(body, d, i, j) {
          faces := faces + [FaceAt(body, d, i, j)];
        }
      }
    }
  }

  // ------------------------------------------------------------- from faces to grid sums

  function FaceSum(q: Face -> real, faces: seq<Face>): real {
    if faces == [] then 0.0 else FaceSum(q, faces[..|faces| - 1]) + q(faces[|faces| - 1])
  }

  lemma {:induction false} FaceSumConcat(q: Face -> real, a: seq<Face>, b: seq<Face>)
    ensures FaceSum(q, a + b) == FaceSum(q, a) + FaceSum(q, b)
    decreases |b|
  {
    if b == [] {
      assert a + b == a;
    } else {
      var n := |b| - 1;
      assert (a + b)[..|a + b| - 1] == a + b[..n];
      FaceSumConcat(q, a, b[..n]);
    }
  }

  /** What direction `d` contributes at node (i, j). */
  function ExposedAt(body: Body, q: Face -> real, d: Direction, i: int, j: int): real
    requires Shaped(body)
  {
    if Exposed(body, d, i, j) then q(FaceAt(body, d, i, j)) else 0.0
  }

  function ExposedTerm(body: Body, q: Face -> real, d: Direction): Term
    requires Shaped(body)
  {
    (i: int, j: int) => ExposedAt(body, q, d, i, j)
  }

  lemma {:induction false} RowFacesSum(body: Body, q: Face -> real, d: Direction, i: int, n: nat)
    requires Shaped(body)
    ensures FaceSum(q, RowFaces(body, d, i, n)) == RowSum(ExposedTerm(body, q, d), i, 0, n)
  {
    hide FaceAt;
    if n > 0 {
      RowFacesSum(body, q, d, i, n - 1);
      if Exposed(body, d, i, n - 1) {
        var face := FaceAt(body, d, i, n - 1);
        FaceSumConcat(q, RowFaces(body, d, i, n - 1), [face]);
        assert FaceSum(q, [face]) == FaceSum(q, [face][..0]) + q(face);
      } else {
        assert RowFaces(body, d, i, n) == RowFaces(body, d, i, n - 1);
      }
    }
  }

  lemma {:induction false} DirectionFacesSum(body: Body, q: Face -> real, d: Direction, m: nat)
    requires Shaped(body)
    ensures FaceSum(q, DirectionFaces(body, d, m)) == GridSum(ExposedTerm(body, q, d), 0, m, 0, |body.x|)
  {
    if m > 0 {
      DirectionFacesSum(body, q, d, m - 1);
      RowFacesSum(body, q, d, m - 1, |body.x|);
      FaceSumConcat(q, DirectionFaces(body, d, m - 1), RowFaces(body, d, m - 1, |body.x|));
    }
  }

  function OverGrid(body: Body, f: Term): real {
    GridSum(f, 0, |body.y|, 0, |body.x|)
  }

  /** An integral over the staircase is four sums over the lattice. */
  lemma SurfaceSum(body: Body, q: Face -> real)
    requires Shaped(body)
    ensures FaceSum(q, Surface(body))
            == OverGrid(body, ExposedTerm(body, q, East)) + OverGrid(body, ExposedTerm(body, q, West))
               + OverGrid(body, ExposedTerm(body, q, North)) + OverGrid(body, ExposedTerm(body, q, South))
  {
    hide DirectionFaces, FaceSum, GridSum;
    var e, w := DirectionFaces(body, East, |body.y|), DirectionFaces(body, West, |body.y|);
    var n, s := DirectionFaces(body, North, |body.y|), DirectionFaces(body, South, |body.y|);
    DirectionFacesSum(body, q, East, |body.y|);
    DirectionFacesSum(body, q, West, |body.y|);
    DirectionFacesSum(body, q, North, |body.y|);
    DirectionFacesSum(body, q, South, |body.y|);
    FaceSumConcat(q, e, w);
    FaceSumConcat(q, e + w, n);
    FaceSumConcat(q, e + w + n, s);
  }

  // --------------------------------------------------- the discrete divergence theorem

  /** The integrand of a flux through vertical faces: `value(i, j)` sits on the interface east
      of (i, j) and counts positively from its west side, negatively from its east side. */
  ghost predicate CrossesColumns(body: Body, q: Face -> real, value: Term)
    requires Shaped(body)
  {
    && (forall i, j :: Exposed(body, East, i, j) ==> q(FaceAt(body, East, i, j)) == value(i, j))
    && (forall i, j :: Exposed(body, West, i, j) ==> q(FaceAt(body, West, i, j)) == -value(i, j - 1))
  }

  ghost predicate CrossesRows(body: Body, q: Face -> real, value: Term)
    requires Shaped(body)
  {
    && (forall i, j :: Exposed(body, North, i, j) ==> q(FaceAt(body, North, i, j)) == value(i, j))
    && (forall i, j :: Exposed(body, South, i, j) ==> q(FaceAt(body, South, i, j)) == -value(i - 1, j))
  }

  /** The change of `value` across a body node. */
  function ColumnChangeAt(body: Body, value: Term, i: int, j: int): real
    requires Shaped(body)
  {
    if Masked(body, i, j) then value(i, j) - value(i, j - 1) else 0.0
  }

  function RowChangeAt(body: Body, value: Term, i: int, j: int): real
    requires Shaped(body)
  {
    if Masked(body, i, j) then value(i, j) - value(i - 1, j) else 0.0
  }

  /** Faces the walk never sees because they would lie outside the grid. */
  function ColumnGapAt(body: Body, value: Term, i: int, j: int): real
    requires Shaped(body)
  {
    (if Masked(body, i, j) && j == |body.x| - 1 then value(i, j) else 0.0)
    - (if Masked(body, i, j) && j == 0 then value(i, j - 1) else 0.0)
  }

  function RowGapAt(body: Body, value: Term, i: int, j: int): real
    requires Shaped(body)
  {
    (if Masked(body, i, j) && i == |body.y| - 1 then value(i, j) else 0.0)
    - (if Masked(body, i, j) && i == 0 then value(i - 1, j) else 0.0)
  }

  /** Interfaces with body on both sides, where the two contributions cancel. */
  function ColumnSeamAt(body: Body, value: Term, i: int, j: int): real
    requires Shaped(body)
  {
    if Masked(body, i, j) && Masked(body, i, j + 1) then value(i, j) else 0.0
  }

  function RowSeamAt(body: Body, value: Term, i: int, j: int): real
    requires Shaped(body)
  {
    if Masked(body, i, j) && Masked(body, i + 1, j) then value(i, j) else 0.0
  }

  lemma ColumnCell(body: Body, q: Face -> real, value: Term, i: int, j: int)
    requires Shaped(body) && CrossesColumns(body, q, value) && OnGrid(body, i, j)
    ensures ExposedAt(body, q, East, i, j) + ExposedAt(body, q, West, i, j)
            == ColumnChangeAt(body, value, i, j) - ColumnGapAt(body, value, i, j)
               - (ColumnSeamAt(body, value, i, j) - ColumnSeamAt(body, value, i, j - 1))
  {
    hide FaceAt;
  }

  lemma RowCell(body: Body, q: Face -> real, value: Term, i: int, j: int)
    requires Shaped(body) && CrossesRows(body, q, value) && OnGrid(body, i, j)
    ensures ExposedAt(body, q, North, i, j) + ExposedAt(body, q, South, i, j)
            == RowChangeAt(body, value, i, j) - RowGapAt(body, value, i, j)
               - (RowSeamAt(body, value, i, j) - RowSeamAt(body, value, i - 1, j))
  {
    hide FaceAt;
  }

  function ColumnChange(body: Body, value: Term): Term
    requires Shaped(body)
  {
    (i: int, j: int) => ColumnChangeAt(body, value, i, j)
  }

  function RowChange(body: Body, value: Term): Term
    requires Shaped(body)
  {
    (i: int, j: int) => RowChangeAt(body, value, i, j)
  }

  function ColumnGap(body: Body, value: Term): Term
    requires Shaped(body)
  {
    (i: int, j: int) => ColumnGapAt(body, value, i, j)
  }

  function RowGap(body: Body, value: Term): Term
    requires Shaped(body)
  {
    (i: int, j: int) => RowGapAt(body, value, i, j)
  }

  /** The vertical faces integrate to the change of the integrand across the body, less what
      the grid's own left and right edges cut off. */
  lemma ColumnDivergence(body: Body, q: Face -> real, value: Term)
    requires Shaped(body) && CrossesColumns(body, q, value)
    ensures OverGrid(body, ExposedTerm(body, q, East)) + OverGrid(body, ExposedTerm(body, q, West))
            == OverGrid(body, ColumnChange(body, value)) - OverGrid(body, ColumnGap(body, value))
  {
    hide ExposedAt, ColumnChangeAt, ColumnGapAt;
    var seam: Term := (i: int, j: int) => ColumnSeamAt(body, value, i, j);
    forall i, j | 0 <= i < |body.y| && 0 <= j < |body.x|
      ensures ExposedTerm(body, q, East)(i, j) + ExposedTerm(body, q, West)(i, j)
              == ColumnChange(body, value)(i, j) - ColumnGap(body, value)(i, j)
                 - (seam(i, j) - seam(i, j - 1))
    {
      ColumnCell(body, q, value, i, j);
    }
    GridBalanceAlongRows(
      ExposedTerm(body, q, East), ExposedTerm(body, q, West),
      ColumnChange(body, value), ColumnGap(body, value), seam, 0, |body.y|, 0, |body.x|);
  }

  /** The horizontal faces, likewise. */
  lemma RowDivergence(body: Body, q: Face -> real, value: Term)
    requires Shaped(body) && CrossesRows(body, q, value)
    ensures OverGrid(body, ExposedTerm(body, q, North)) + OverGrid(body, ExposedTerm(body, q, South))
            == OverGrid(body, RowChange(body, value)) - OverGrid(body, RowGap(body, value))
  {
    hide ExposedAt, RowChangeAt, RowGapAt;
    var seam: Term := (i: int, j: int) => RowSeamAt(body, value, i, j);
    forall i, j | 0 <= i < |body.y| && 0 <= j < |body.x|
      ensures ExposedTerm(body, q, North)(i, j) + ExposedTerm(body, q, South)(i, j)
              == RowChange(body, value)(i, j) - RowGap(body, value)(i, j)
                 - (seam(i, j) - seam(i - 1, j))
    {
      RowCell(body, q, value, i, j);
    }
    GridBalanceAcrossRows(
      ExposedTerm(body, q, North), ExposedTerm(body, q, South),
      RowChange(body, value), RowGap(body, value), seam, 0, |body.y|, 0, |body.x|);
    RowSumZero(seam, |body.y| - 1, 0, |body.x|);
    RowSumZero(seam, -1, 0, |body.x|);
  }

  // ------------------------------------------------------------------------------- loads

  /** The chord the coefficients refer to: its length, its unit direction from nose to tail,
      and the quarter-chord point. */
  datatype Profile = Profile(
    chord: real, alongX: real, alongY: real, quarterX: real, quarterY: real)

  datatype Loads = Loads(lift: real, drag: real, moment: real, normal: real)

  type Pressure = (real, real) -> real

  /** The force on the body through one face, pressure pushing inward, and its moment about +z. */
  function PushX(cp: real, f: Face): real {
    -(cp * f.length * f.normalX)
  }

  function PushY(cp: real, f: Face): real {
    -(cp * f.length * f.normalY)
  }

  function Twist(cp: real, f: Face, profile: Profile): real {
    (f.x - profile.quarterX) * PushY(cp, f) - (f.y - profile.quarterY) * PushX(cp, f)
  }

  function TotalX(faces: seq<Face>, cp: seq<real>): real
    requires |faces| == |cp|
  {
    if faces == [] then 0.0
    else
      var n := |faces| - 1;
      TotalX(faces[..n], cp[..n]) + PushX(cp[n], faces[n])
  }

  function TotalY(faces: seq<Face>, cp: seq<real>): real
    requires |faces| == |cp|
  {
    if faces == [] then 0.0
    else
      var n := |faces| - 1;
      TotalY(faces[..n], cp[..n]) + PushY(cp[n], faces[n])
  }

  function TotalTwist(faces: seq<Face>, cp: seq<real>, profile: Profile): real
    requires |faces| == |cp|
  {
    if faces == [] then 0.0
    else
      var n := |faces| - 1;
      TotalTwist(faces[..n], cp[..n], profile) + Twist(cp[n], faces[n], profile)
  }

  /** Force and moment coefficients at an incidence given by its cosine and sine. */
  function SurfaceLoads(
    faces: seq<Face>, cp: seq<real>, profile: Profile, cos: real, sin: real): Loads
    requires |faces| == |cp| && profile.chord > 0.0
  {
    LoadsAt(TotalX(faces, cp) / profile.chord, TotalY(faces, cp) / profile.chord,
            TotalTwist(faces, cp, profile), profile, cos, sin)
  }

  /** The coefficients of a force already divided by the chord. */
  function LoadsAt(fx: real, fy: real, twist: real, profile: Profile, cos: real, sin: real): Loads
    requires profile.chord > 0.0
  {
    var chordwise := fx * profile.alongX + fy * profile.alongY;
    var normalwise := fx * -profile.alongY + fy * profile.alongX;
    Loads(
      normalwise * cos - chordwise * sin,
      chordwise * cos + normalwise * sin,
      -(twist / Squared(profile.chord)),
      normalwise)
  }

  /** The coefficient is the component of the force along `(u, v)` over the chord. */
  ghost predicate IsComponent(coefficient: real, chord: real, fx: real, fy: real, u: real, v: real) {
    coefficient * chord == fx * u + fy * v
  }

  lemma ComponentOf(x: real, y: real, chord: real, fx: real, fy: real, u: real, v: real)
    requires x * chord == fx && y * chord == fy
    ensures IsComponent(x * u + y * v, chord, fx, fy, u, v)
  {
    assert x * u * chord == fx * u && y * v * chord == fy * v;
  }

  lemma Resolved(x: real, y: real, ax: real, ay: real, cos: real, sin: real, sx: real, sy: real)
    requires sx == ax * cos - ay * sin && sy == ay * cos + ax * sin
    ensures (x * ax + y * ay) * cos + (x * -ay + y * ax) * sin == x * sx + y * sy
    ensures (x * -ay + y * ax) * cos - (x * ax + y * ay) * sin == x * -sy + y * sx
  {
    assert x * sx == x * (ax * cos) - x * (ay * sin) && y * sy == y * (ay * cos) + y * (ax * sin);
    assert x * sy == x * (ay * cos) + x * (ax * sin) && y * sx == y * (ax * cos) - y * (ay * sin);
  }

  /** The four coefficients of a force and a twist, in the stream `(sx, sy)`: drag is the force along the
      stream, lift the force a quarter turn from it, the normal force that a quarter turn from the chord,
      each over the chord; the moment is nose-up, so the opposite of a turn about +z, over its square. */
  ghost predicate Resolves(
    loads: Loads, profile: Profile, fx: real, fy: real, twist: real, sx: real, sy: real)
  {
    && IsComponent(loads.drag, profile.chord, fx, fy, sx, sy)
    && IsComponent(loads.lift, profile.chord, fx, fy, -sy, sx)
    && IsComponent(loads.normal, profile.chord, fx, fy, -profile.alongY, profile.alongX)
    && loads.moment * (profile.chord * profile.chord) == -twist
  }

  lemma CoefficientsResolve(
    profile: Profile, x: real, y: real, fx: real, fy: real, twist: real, cos: real, sin: real, sx: real, sy: real)
    requires profile.chord > 0.0 && x * profile.chord == fx && y * profile.chord == fy
    requires sx == profile.alongX * cos - profile.alongY * sin && sy == profile.alongY * cos + profile.alongX * sin
    ensures Resolves(LoadsAt(x, y, twist, profile, cos, sin), profile, fx, fy, twist, sx, sy)
  {
    Resolved(x, y, profile.alongX, profile.alongY, cos, sin, sx, sy);
    ComponentOf(x, y, profile.chord, fx, fy, sx, sy);
    ComponentOf(x, y, profile.chord, fx, fy, -sy, sx);
    ComponentOf(x, y, profile.chord, fx, fy, -profile.alongY, profile.alongX);
    OverSquare(twist, profile.chord);
    hide IsComponent, Squared;
  }

  lemma OverSquare(x: real, chord: real)
    requires chord > 0.0
    ensures -(x / Squared(chord)) * (chord * chord) == -x
  {
    MulPositive(chord, chord);
    var q := x / (chord * chord);
    assert q * (chord * chord) == x;
  }

  /** What the loads of a surface are; the stream is the chord turned by the incidence. */
  lemma LoadsResolveTheForce(faces: seq<Face>, cp: seq<real>, profile: Profile, cos: real, sin: real)
    requires |faces| == |cp| && profile.chord > 0.0
    ensures Resolves(SurfaceLoads(faces, cp, profile, cos, sin), profile,
                     TotalX(faces, cp), TotalY(faces, cp), TotalTwist(faces, cp, profile),
                     profile.alongX * cos - profile.alongY * sin, profile.alongY * cos + profile.alongX * sin)
  {
    hide TotalX, TotalY, TotalTwist, Squared, Resolves, LoadsAt;
    var sx, sy := profile.alongX * cos - profile.alongY * sin, profile.alongY * cos + profile.alongX * sin;
    var x, y := TotalX(faces, cp) / profile.chord, TotalY(faces, cp) / profile.chord;
    OverChord(TotalX(faces, cp), profile.chord);
    OverChord(TotalY(faces, cp), profile.chord);
    CoefficientsResolve(profile, x, y, TotalX(faces, cp), TotalY(faces, cp), TotalTwist(faces, cp, profile),
                        cos, sin, sx, sy);
  }

  lemma OverChord(f: real, chord: real)
    requires chord > 0.0
    ensures f / chord * chord == f
  {
  }

  /** Each face is priced by the pressure at its midpoint. */
  ghost predicate Priced(faces: seq<Face>, cp: seq<real>, p: Pressure) {
    |faces| == |cp| && forall k :: 0 <= k < |faces| ==> cp[k] == p(faces[k].x, faces[k].y)
  }

  function PushXOf(p: Pressure): Face -> real {
    (f: Face) => PushX(p(f.x, f.y), f)
  }

  function PushYOf(p: Pressure): Face -> real {
    (f: Face) => PushY(p(f.x, f.y), f)
  }

  function TwistOf(p: Pressure, profile: Profile): Face -> real {
    (f: Face) => Twist(p(f.x, f.y), f, profile)
  }

  lemma {:induction false} TotalsAreFaceSums(
    faces: seq<Face>, cp: seq<real>, p: Pressure, profile: Profile)
    requires Priced(faces, cp, p)
    ensures TotalX(faces, cp) == FaceSum(PushXOf(p), faces)
    ensures TotalY(faces, cp) == FaceSum(PushYOf(p), faces)
    ensures TotalTwist(faces, cp, profile) == FaceSum(TwistOf(p, profile), faces)
    decreases |faces|
  {
    hide PushX, PushY, Twist;
    if faces != [] {
      var n := |faces| - 1;
      TotalsAreFaceSums(faces[..n], cp[..n], p, profile);
    }
  }

  // ---------------------------------------------------------------- pressure on a lattice

  ghost predicate Lattice(body: Body, dx: real, dy: real) {
    Shaped(body) && dx > 0.0 && dy > 0.0 && Uniform(body.x, dx) && Uniform(body.y, dy)
  }

  /** No body node on the outermost ring of the grid. */
  ghost predicate ClearOfEdge(body: Body)
    requires Shaped(body)
  {
    forall i, j :: Masked(body, i, j) ==> 1 <= i < |body.y| - 1 && 1 <= j < |body.x| - 1
  }

  /** The midpoint between nodes k and k + 1 of an axis, extended past its ends. */
  function Mid(axis: seq<real>, step: real, k: int): real
    requires |axis| > 0
  {
    axis[0] + (k as real + 0.5) * step
  }

  lemma MidpointOf(axis: seq<real>, step: real, k: nat)
    requires Uniform(axis, step) && k + 1 < |axis|
    ensures 0.5 * (axis[k] + axis[k + 1]) == Mid(axis, step, k)
    ensures axis[1] - axis[0] == step
  {
    assert (k + 1) as real * step == k as real * step + step;
    assert axis[1] == axis[0] + 1 as real * step;
  }

  function At(axis: seq<real>, k: int): real {
    if 0 <= k < |axis| then axis[k] else 0.0
  }

  /** The push on the body at the interface east of (i, j), and at the one north of it. */
  function EastPush(body: Body, p: Pressure, dx: real, dy: real, i: int, j: int): real
    requires Shaped(body)
  {
    -(p(Mid(body.x, dx, j), At(body.y, i)) * dy)
  }

  function NorthPush(body: Body, p: Pressure, dx: real, dy: real, i: int, j: int): real
    requires Shaped(body)
  {
    -(p(At(body.x, j), Mid(body.y, dy, i)) * dx)
  }

  lemma VerticalFace(body: Body, dx: real, dy: real, d: Direction, i: int, j: int)
    requires Lattice(body, dx, dy) && Exposed(body, d, i, j) && (d.East? || d.West?)
    ensures var f := FaceAt(body, d, i, j);
            && f.x == Mid(body.x, dx, if d.East? then j else j - 1) && f.y == At(body.y, i)
            && f.length == dy && f.normalY == 0.0 && f.normalX == (if d.East? then 1.0 else -1.0)
  {
    hide Mid;
    MidpointOf(body.x, dx, if d.East? then j else j - 1);
    MidpointOf(body.y, dy, 0);
  }

  lemma HorizontalFace(body: Body, dx: real, dy: real, d: Direction, i: int, j: int)
    requires Lattice(body, dx, dy) && Exposed(body, d, i, j) && (d.North? || d.South?)
    ensures var f := FaceAt(body, d, i, j);
            && f.y == Mid(body.y, dy, if d.North? then i else i - 1) && f.x == At(body.x, j)
            && f.length == dx && f.normalX == 0.0 && f.normalY == (if d.North? then 1.0 else -1.0)
  {
    hide Mid;
    MidpointOf(body.y, dy, if d.North? then i else i - 1);
    MidpointOf(body.x, dx, 0);
  }

  function EastPushes(body: Body, p: Pressure, dx: real, dy: real): Term
    requires Shaped(body)
  {
    (i: int, j: int) => EastPush(body, p, dx, dy, i, j)
  }

  function NorthPushes(body: Body, p: Pressure, dx: real, dy: real): Term
    requires Shaped(body)
  {
    (i: int, j: int) => NorthPush(body, p, dx, dy, i, j)
  }

  lemma PushFacts(cp: real, f: Face)
    ensures f.normalX == 0.0 ==> PushX(cp, f) == 0.0
    ensures f.normalX == 1.0 ==> PushX(cp, f) == -(cp * f.length)
    ensures f.normalX == -1.0 ==> PushX(cp, f) == cp * f.length
    ensures f.normalY == 0.0 ==> PushY(cp, f) == 0.0
    ensures f.normalY == 1.0 ==> PushY(cp, f) == -(cp * f.length)
    ensures f.normalY == -1.0 ==> PushY(cp, f) == cp * f.length
  {
    var w := cp * f.length;
    assert f.normalX == 0.0 ==> w * f.normalX == 0.0;
    assert f.normalX == 1.0 ==> w * f.normalX == w;
    assert f.normalX == -1.0 ==> w * f.normalX == -w;
    assert f.normalY == 0.0 ==> w * f.normalY == 0.0;
    assert f.normalY == 1.0 ==> w * f.normalY == w;
    assert f.normalY == -1.0 ==> w * f.normalY == -w;
  }

  lemma NothingAcross(body: Body, q: Face -> real, d: Direction)
    requires Shaped(body)
    requires forall i, j :: Exposed(body, d, i, j) ==> q(FaceAt(body, d, i, j)) == 0.0
    ensures OverGrid(body, ExposedTerm(body, q, d)) == 0.0
  {
    hide FaceAt;
    GridSumZero(ExposedTerm(body, q, d), 0, |body.y|, 0, |body.x|);
  }

  lemma PricePush(body: Body, p: Pressure, d: Direction, i: int, j: int)
    requires Shaped(body) && Exposed(body, d, i, j)
    ensures var f := FaceAt(body, d, i, j);
            var push := p(f.x, f.y) * f.length;
            && PushXOf(p)(f) == (if f.normalX == 0.0 then 0.0 else if f.normalX == 1.0 then -push
                                 else if f.normalX == -1.0 then push else PushX(p(f.x, f.y), f))
            && PushYOf(p)(f) == (if f.normalY == 0.0 then 0.0 else if f.normalY == 1.0 then -push
                                 else if f.normalY == -1.0 then push else PushY(p(f.x, f.y), f))
  {
    hide FaceAt, PushX, PushY;
    var f := FaceAt(body, d, i, j);
    PushFacts(p(f.x, f.y), f);
  }

  /** For any pressure at all, the force along x is what the pressure changes by across the
      body's nodes, plus what the grid's left and right edges cut off. */
  lemma ForceX(body: Body, dx: real, dy: real, cp: seq<real>, p: Pressure)
    requires Lattice(body, dx, dy) && Priced(Surface(body), cp, p)
    ensures TotalX(Surface(body), cp)
            == OverGrid(body, ColumnChange(body, EastPushes(body, p, dx, dy)))
               - OverGrid(body, ColumnGap(body, EastPushes(body, p, dx, dy)))
  {
    hide FaceAt, Exposed, Surface, OverGrid, Mid, Uniform, PushX, PushY;
    var q, value := PushXOf(p), EastPushes(body, p, dx, dy);
    TotalsAreFaceSums(Surface(body), cp, p, Profile(1.0, 1.0, 0.0, 0.0, 0.0));
    SurfaceSum(body, q);
    forall i, j | Exposed(body, East, i, j)
      ensures q(FaceAt(body, East, i, j)) == value(i, j)
    {
      VerticalFace(body, dx, dy, East, i, j);
      PricePush(body, p, East, i, j);
    }
    forall i, j | Exposed(body, West, i, j)
      ensures q(FaceAt(body, West, i, j)) == -value(i, j - 1)
    {
      VerticalFace(body, dx, dy, West, i, j);
      PricePush(body, p, West, i, j);
    }
    ColumnDivergence(body, q, value);
    forall i, j | Exposed(body, North, i, j)
      ensures q(FaceAt(body, North, i, j)) == 0.0
    {
      HorizontalFace(body, dx, dy, North, i, j);
      PricePush(body, p, North, i, j);
    }
    NothingAcross(body, q, North);
    forall i, j | Exposed(body, South, i, j)
      ensures q(FaceAt(body, South, i, j)) == 0.0
    {
      HorizontalFace(body, dx, dy, South, i, j);
      PricePush(body, p, South, i, j);
    }
    NothingAcross(body, q, South);
  }

  lemma ForceY(body: Body, dx: real, dy: real, cp: seq<real>, p: Pressure)
    requires Lattice(body, dx, dy) && Priced(Surface(body), cp, p)
    ensures TotalY(Surface(body), cp)
            == OverGrid(body, RowChange(body, NorthPushes(body, p, dx, dy)))
               - OverGrid(body, RowGap(body, NorthPushes(body, p, dx, dy)))
  {
    hide FaceAt, Exposed, Surface, OverGrid, Mid, Uniform, PushX, PushY;
    var q, value := PushYOf(p), NorthPushes(body, p, dx, dy);
    TotalsAreFaceSums(Surface(body), cp, p, Profile(1.0, 1.0, 0.0, 0.0, 0.0));
    SurfaceSum(body, q);
    forall i, j | Exposed(body, North, i, j)
      ensures q(FaceAt(body, North, i, j)) == value(i, j)
    {
      HorizontalFace(body, dx, dy, North, i, j);
      PricePush(body, p, North, i, j);
    }
    forall i, j | Exposed(body, South, i, j)
      ensures q(FaceAt(body, South, i, j)) == -value(i - 1, j)
    {
      HorizontalFace(body, dx, dy, South, i, j);
      PricePush(body, p, South, i, j);
    }
    RowDivergence(body, q, value);
    forall i, j | Exposed(body, East, i, j)
      ensures q(FaceAt(body, East, i, j)) == 0.0
    {
      VerticalFace(body, dx, dy, East, i, j);
      PricePush(body, p, East, i, j);
    }
    NothingAcross(body, q, East);
    forall i, j | Exposed(body, West, i, j)
      ensures q(FaceAt(body, West, i, j)) == 0.0
    {
      VerticalFace(body, dx, dy, West, i, j);
      PricePush(body, p, West, i, j);
    }
    NothingAcross(body, q, West);
  }

  // -------------------------------------------------------- affine and constant pressures

  function Affine(a: real, b: real, c: real): Pressure {
    (x: real, y: real) => a * x + b * y + c
  }

  function Flag(on: bool): real {
    if on then 1.0 else 0.0
  }

  function MaskFlags(body: Body): Term
    requires Shaped(body)
  {
    (i: int, j: int) => Flag(Masked(body, i, j))
  }

  /** How many nodes the mask covers. */
  function MaskedNodes(body: Body): real
    requires Shaped(body)
  {
    OverGrid(body, MaskFlags(body))
  }

  lemma EastPushChange(body: Body, dx: real, dy: real, a: real, b: real, c: real, i: int, j: int)
    requires Shaped(body)
    ensures EastPush(body, Affine(a, b, c), dx, dy, i, j) - EastPush(body, Affine(a, b, c), dx, dy, i, j - 1)
            == -a * dx * dy
  {
    hide At;
    AffineStep(a, Mid(body.x, dx, j), Mid(body.x, dx, j - 1), dx, b * At(body.y, i) + c, dy);
  }

  lemma NorthPushChange(body: Body, dx: real, dy: real, a: real, b: real, c: real, i: int, j: int)
    requires Shaped(body)
    ensures NorthPush(body, Affine(a, b, c), dx, dy, i, j) - NorthPush(body, Affine(a, b, c), dx, dy, i - 1, j)
            == -b * dy * dx
  {
    hide At;
    AffineStep(b, Mid(body.y, dy, i), Mid(body.y, dy, i - 1), dy, a * At(body.x, j) + c, dx);
  }

  lemma AffineStep(a: real, x: real, x': real, dx: real, rest: real, dy: real)
    requires x - x' == dx
    ensures -((a * x + rest) * dy) - -((a * x' + rest) * dy) == -a * dx * dy
  {
    assert a * x - a * x' == a * dx;
  }

  lemma ColumnChangeOfAffine(body: Body, dx: real, dy: real, a: real, b: real, c: real)
    requires Shaped(body)
    ensures OverGrid(body, ColumnChange(body, EastPushes(body, Affine(a, b, c), dx, dy)))
            == -a * dx * dy * MaskedNodes(body)
    ensures OverGrid(body, RowChange(body, NorthPushes(body, Affine(a, b, c), dx, dy)))
            == -b * dy * dx * MaskedNodes(body)
  {
    hide EastPush, NorthPush, Masked, Affine, GridSum;
    var east, north := EastPushes(body, Affine(a, b, c), dx, dy), NorthPushes(body, Affine(a, b, c), dx, dy);
    var perX, perY := -a * dx * dy, -b * dy * dx;
    forall i, j | 0 <= i < |body.y| && 0 <= j < |body.x|
      ensures ColumnChange(body, east)(i, j) == perX * MaskFlags(body)(i, j)
      ensures RowChange(body, north)(i, j) == perY * MaskFlags(body)(i, j)
    {
      EastPushChange(body, dx, dy, a, b, c, i, j);
      NorthPushChange(body, dx, dy, a, b, c, i, j);
      FlagTimes(perX, Masked(body, i, j));
      FlagTimes(perY, Masked(body, i, j));
    }
    GridSumScales(ColumnChange(body, east), MaskFlags(body), perX, 0, |body.y|, 0, |body.x|);
    GridSumScales(RowChange(body, north), MaskFlags(body), perY, 0, |body.y|, 0, |body.x|);
  }

  lemma FlagTimes(c: real, on: bool)
    ensures c * Flag(on) == if on then c else 0.0
  {
  }

  lemma NoGapsWhenClear(body: Body, value: Term)
    requires Shaped(body) && ClearOfEdge(body)
    ensures OverGrid(body, ColumnGap(body, value)) == 0.0
    ensures OverGrid(body, RowGap(body, value)) == 0.0
  {
    GridSumZero(ColumnGap(body, value), 0, |body.y|, 0, |body.x|);
    GridSumZero(RowGap(body, value), 0, |body.y|, 0, |body.x|);
  }

  /** Exact projected areas: on any mask clear of the grid edge, a pressure affine in the face
      midpoint pushes with minus its gradient times the masked area. */
  lemma AffinePressureForce(
    body: Body, dx: real, dy: real, cp: seq<real>, a: real, b: real, c: real)
    requires Lattice(body, dx, dy) && ClearOfEdge(body)
    requires Priced(Surface(body), cp, Affine(a, b, c))
    ensures TotalX(Surface(body), cp) == -a * dx * dy * MaskedNodes(body)
    ensures TotalY(Surface(body), cp) == -b * dy * dx * MaskedNodes(body)
  {
    hide ClearOfEdge, Priced, Uniform, Surface, OverGrid, MaskedNodes, TotalX, TotalY;
    ForceX(body, dx, dy, cp, Affine(a, b, c));
    ForceY(body, dx, dy, cp, Affine(a, b, c));
    ColumnChangeOfAffine(body, dx, dy, a, b, c);
    NoGapsWhenClear(body, EastPushes(body, Affine(a, b, c), dx, dy));
    NoGapsWhenClear(body, NorthPushes(body, Affine(a, b, c), dx, dy));
  }

  // ------------------------------------------------------------------------- the moment

  function EastTwist(body: Body, profile: Profile, p: Pressure, dx: real, dy: real, i: int, j: int): real
    requires Shaped(body)
  {
    (At(body.y, i) - profile.quarterY) * (p(Mid(body.x, dx, j), At(body.y, i)) * dy)
  }

  function NorthTwist(body: Body, profile: Profile, p: Pressure, dx: real, dy: real, i: int, j: int): real
    requires Shaped(body)
  {
    -((At(body.x, j) - profile.quarterX) * (p(At(body.x, j), Mid(body.y, dy, i)) * dx))
  }

  function EastTwists(body: Body, profile: Profile, p: Pressure, dx: real, dy: real): Term
    requires Shaped(body)
  {
    (i: int, j: int) => EastTwist(body, profile, p, dx, dy, i, j)
  }

  function NorthTwists(body: Body, profile: Profile, p: Pressure, dx: real, dy: real): Term
    requires Shaped(body)
  {
    (i: int, j: int) => NorthTwist(body, profile, p, dx, dy, i, j)
  }

  lemma TwistFacts(cp: real, f: Face, profile: Profile)
    ensures f.normalX == 1.0 && f.normalY == 0.0 ==>
              Twist(cp, f, profile) == (f.y - profile.quarterY) * (cp * f.length)
    ensures f.normalX == -1.0 && f.normalY == 0.0 ==>
              Twist(cp, f, profile) == -((f.y - profile.quarterY) * (cp * f.length))
    ensures f.normalY == 1.0 && f.normalX == 0.0 ==>
              Twist(cp, f, profile) == -((f.x - profile.quarterX) * (cp * f.length))
    ensures f.normalY == -1.0 && f.normalX == 0.0 ==>
              Twist(cp, f, profile) == (f.x - profile.quarterX) * (cp * f.length)
  {
    hide PushX, PushY;
    PushFacts(cp, f);
    TimesFacts(f.x - profile.quarterX, cp * f.length);
    TimesFacts(f.y - profile.quarterY, cp * f.length);
  }

  lemma TimesFacts(lever: real, push: real)
    ensures lever * 0.0 == 0.0
    ensures lever * -push == -(lever * push)
  {
  }

  lemma VerticalTwist(
    body: Body, dx: real, dy: real, p: Pressure, profile: Profile, d: Direction, i: int, j: int)
    requires Lattice(body, dx, dy) && Exposed(body, d, i, j) && (d.East? || d.West?)
    ensures TwistOf(p, profile)(FaceAt(body, d, i, j))
            == if d.East? then EastTwist(body, profile, p, dx, dy, i, j)
               else -EastTwist(body, profile, p, dx, dy, i, j - 1)
  {
    hide FaceAt, Exposed, Mid, Uniform, Twist;
    VerticalFace(body, dx, dy, d, i, j);
    var f := FaceAt(body, d, i, j);
    TwistFacts(p(f.x, f.y), f, profile);
  }

  lemma HorizontalTwist(
    body: Body, dx: real, dy: real, p: Pressure, profile: Profile, d: Direction, i: int, j: int)
    requires Lattice(body, dx, dy) && Exposed(body, d, i, j) && (d.North? || d.South?)
    ensures TwistOf(p, profile)(FaceAt(body, d, i, j))
            == if d.North? then NorthTwist(body, profile, p, dx, dy, i, j)
               else -NorthTwist(body, profile, p, dx, dy, i - 1, j)
  {
    hide FaceAt, Exposed, Mid, Uniform, Twist;
    HorizontalFace(body, dx, dy, d, i, j);
    var f := FaceAt(body, d, i, j);
    TwistFacts(p(f.x, f.y), f, profile);
  }

  /** For any pressure at all, the moment is what the levered pressure changes by across the body's
      nodes, along rows and across them, less what the grid's edges cut off. */
  lemma Moment(body: Body, dx: real, dy: real, cp: seq<real>, p: Pressure, profile: Profile)
    requires Lattice(body, dx, dy) && Priced(Surface(body), cp, p)
    ensures var east, north := EastTwists(body, profile, p, dx, dy), NorthTwists(body, profile, p, dx, dy);
            TotalTwist(Surface(body), cp, profile)
            == OverGrid(body, ColumnChange(body, east)) - OverGrid(body, ColumnGap(body, east))
               + OverGrid(body, RowChange(body, north)) - OverGrid(body, RowGap(body, north))
  {
    hide FaceAt, Exposed, Surface, OverGrid, Mid, Uniform, Twist, EastTwist, NorthTwist;
    var q := TwistOf(p, profile);
    var east, north := EastTwists(body, profile, p, dx, dy), NorthTwists(body, profile, p, dx, dy);
    TotalsAreFaceSums(Surface(body), cp, p, profile);
    SurfaceSum(body, q);
    forall i, j | Exposed(body, East, i, j)
      ensures q(FaceAt(body, East, i, j)) == east(i, j)
    {
      VerticalTwist(body, dx, dy, p, profile, East, i, j);
    }
    forall i, j | Exposed(body, West, i, j)
      ensures q(FaceAt(body, West, i, j)) == -east(i, j - 1)
    {
      VerticalTwist(body, dx, dy, p, profile, West, i, j);
    }
    forall i, j | Exposed(body, North, i, j)
      ensures q(FaceAt(body, North, i, j)) == north(i, j)
    {
      HorizontalTwist(body, dx, dy, p, profile, North, i, j);
    }
    forall i, j | Exposed(body, South, i, j)
      ensures q(FaceAt(body, South, i, j)) == -north(i - 1, j)
    {
      HorizontalTwist(body, dx, dy, p, profile, South, i, j);
    }
    ColumnDivergence(body, q, east);
    RowDivergence(body, q, north);
  }

  /** What an affine pressure turns a body node by, for each unit of cell area. */
  function TurnAt(body: Body, profile: Profile, a: real, b: real, i: int, j: int): real
    requires Shaped(body)
  {
    if Masked(body, i, j) then a * (At(body.y, i) - profile.quarterY) - b * (At(body.x, j) - profile.quarterX)
    else 0.0
  }

  function Turns(body: Body, profile: Profile, a: real, b: real): Term
    requires Shaped(body)
  {
    (i: int, j: int) => TurnAt(body, profile, a, b, i, j)
  }

  lemma LeveredStep(lever: real, a: real, x: real, x': real, dx: real, rest: real, dy: real)
    requires x - x' == dx
    ensures lever * ((a * x + rest) * dy) - lever * ((a * x' + rest) * dy) == (dx * dy) * (a * lever)
  {
    AffineStep(a, x, x', dx, rest, dy);
    var high, low := (a * x + rest) * dy, (a * x' + rest) * dy;
    assert high - low == a * dx * dy;
    Distributes(lever, high, -low);
    Regroup(lever, a, dx, dy);
  }

  lemma Regroup(lever: real, a: real, dx: real, dy: real)
    ensures lever * (a * dx * dy) == (dx * dy) * (a * lever)
  {
  }

  lemma EastTwistChange(
    body: Body, profile: Profile, dx: real, dy: real, a: real, b: real, c: real, i: int, j: int)
    requires Shaped(body)
    ensures var p := Affine(a, b, c);
            EastTwist(body, profile, p, dx, dy, i, j) - EastTwist(body, profile, p, dx, dy, i, j - 1)
            == (dx * dy) * (a * (At(body.y, i) - profile.quarterY))
  {
    hide At;
    LeveredStep(At(body.y, i) - profile.quarterY, a, Mid(body.x, dx, j), Mid(body.x, dx, j - 1), dx,
                b * At(body.y, i) + c, dy);
  }

  lemma NorthTwistChange(
    body: Body, profile: Profile, dx: real, dy: real, a: real, b: real, c: real, i: int, j: int)
    requires Shaped(body)
    ensures var p := Affine(a, b, c);
            NorthTwist(body, profile, p, dx, dy, i, j) - NorthTwist(body, profile, p, dx, dy, i - 1, j)
            == -((dy * dx) * (b * (At(body.x, j) - profile.quarterX)))
  {
    hide At;
    LeveredStep(At(body.x, j) - profile.quarterX, b, Mid(body.y, dy, i), Mid(body.y, dy, i - 1), dy,
                a * At(body.x, j) + c, dx);
  }

  lemma TurnIsChange(
    body: Body, profile: Profile, dx: real, dy: real, a: real, b: real, c: real, i: int, j: int)
    requires Shaped(body)
    ensures var p := Affine(a, b, c);
            ColumnChange(body, EastTwists(body, profile, p, dx, dy))(i, j)
            + RowChange(body, NorthTwists(body, profile, p, dx, dy))(i, j)
            == (dx * dy) * Turns(body, profile, a, b)(i, j)
  {
    hide EastTwist, NorthTwist, Affine, At;
    var p := Affine(a, b, c);
    var turn, lean := a * (At(body.y, i) - profile.quarterY), b * (At(body.x, j) - profile.quarterX);
    EastTwistChange(body, profile, dx, dy, a, b, c, i, j);
    NorthTwistChange(body, profile, dx, dy, a, b, c, i, j);
    DifferenceTimes(dx, dy, turn, lean);
    if Masked(body, i, j) {
      assert ColumnChange(body, EastTwists(body, profile, p, dx, dy))(i, j)
          == EastTwist(body, profile, p, dx, dy, i, j) - EastTwist(body, profile, p, dx, dy, i, j - 1);
      assert RowChange(body, NorthTwists(body, profile, p, dx, dy))(i, j)
          == NorthTwist(body, profile, p, dx, dy, i, j) - NorthTwist(body, profile, p, dx, dy, i - 1, j);
      assert Turns(body, profile, a, b)(i, j) == turn - lean;
    } else {
      assert Turns(body, profile, a, b)(i, j) == 0.0;
    }
  }

  lemma DifferenceTimes(dx: real, dy: real, u: real, v: real)
    ensures (dx * dy) * u - (dy * dx) * v == (dx * dy) * (u - v)
  {
    assert dy * dx == dx * dy;
    Distributes(dx * dy, u, -v);
  }

  /** On any mask clear of the grid edge a pressure affine in the face midpoint has exactly the
      moment of its gradient over the masked cells. */
  lemma AffinePressureMoment(
    body: Body, dx: real, dy: real, cp: seq<real>, a: real, b: real, c: real, profile: Profile)
    requires Lattice(body, dx, dy) && ClearOfEdge(body)
    requires Priced(Surface(body), cp, Affine(a, b, c))
    ensures TotalTwist(Surface(body), cp, profile) == (dx * dy) * OverGrid(body, Turns(body, profile, a, b))
  {
    hide ClearOfEdge, Priced, Uniform, Surface, TotalTwist, EastTwists, NorthTwists, ColumnChange, RowChange, Turns,
      GridSum;
    var p := Affine(a, b, c);
    var east, north := EastTwists(body, profile, p, dx, dy), NorthTwists(body, profile, p, dx, dy);
    Moment(body, dx, dy, cp, p, profile);
    NoGapsWhenClear(body, east);
    NoGapsWhenClear(body, north);
    var along, across := ColumnChange(body, east), RowChange(body, north);
    var both: Term := (i: int, j: int) => along(i, j) + across(i, j);
    GridSumAdds(both, along, across, 0, |body.y|, 0, |body.x|);
    forall i, j | 0 <= i < |body.y| && 0 <= j < |body.x|
      ensures both(i, j) == (dx * dy) * Turns(body, profile, a, b)(i, j)
    {
      TurnIsChange(body, profile, dx, dy, a, b, c, i, j);
    }
    GridSumScales(both, Turns(body, profile, a, b), dx * dy, 0, |body.y|, 0, |body.x|);
  }

  function Constant(c: real): Pressure {
    (x: real, y: real) => c
  }

  /** A constant pressure turns the body neither way, wherever the moment is taken. */
  lemma ConstantPressureMoment(
    body: Body, dx: real, dy: real, cp: seq<real>, c: real, profile: Profile)
    requires Lattice(body, dx, dy) && ClearOfEdge(body)
    requires Priced(Surface(body), cp, Constant(c))
    ensures TotalTwist(Surface(body), cp, profile) == 0.0
  {
    hide ClearOfEdge, Uniform, Surface, TotalTwist;
    ConstantIsAffine(Surface(body), cp, c);
    AffinePressureMoment(body, dx, dy, cp, 0.0, 0.0, c, profile);
    hide At;
    GridSumZero(Turns(body, profile, 0.0, 0.0), 0, |body.y|, 0, |body.x|);
  }

  // ------------------------------------------------------------------------ closed surfaces

  /** The loads of an affine pressure on a mask clear of the grid edge, at any incidence and about any
      chord: those of minus its gradient times the masked area, and of the moment of that gradient over
      the masked cells. */
  lemma AffinePressureLoads(
    body: Body, dx: real, dy: real, cp: seq<real>, a: real, b: real, c: real, profile: Profile, cos: real, sin: real)
    requires Lattice(body, dx, dy) && ClearOfEdge(body) && profile.chord > 0.0
    requires Priced(Surface(body), cp, Affine(a, b, c))
    ensures Resolves(SurfaceLoads(Surface(body), cp, profile, cos, sin), profile,
                     -a * dx * dy * MaskedNodes(body), -b * dy * dx * MaskedNodes(body),
                     (dx * dy) * OverGrid(body, Turns(body, profile, a, b)),
                     profile.alongX * cos - profile.alongY * sin, profile.alongY * cos + profile.alongX * sin)
  {
    hide Uniform, ClearOfEdge, Surface, TotalX, TotalY, TotalTwist, MaskedNodes, OverGrid, Turns, SurfaceLoads,
      Resolves, Affine;
    AffinePressureForce(body, dx, dy, cp, a, b, c);
    AffinePressureMoment(body, dx, dy, cp, a, b, c, profile);
    LoadsResolveTheForce(Surface(body), cp, profile, cos, sin);
  }

  /** A body clear of the grid edge has a closed staircase: a constant pressure loads it with
      nothing, at any incidence and about any chord. */
  lemma ConstantPressureLoadsNothing(
    body: Body, dx: real, dy: real, cp: seq<real>, c: real, profile: Profile, cos: real, sin: real)
    requires Lattice(body, dx, dy) && ClearOfEdge(body) && profile.chord > 0.0
    requires Priced(Surface(body), cp, Constant(c))
    ensures SurfaceLoads(Surface(body), cp, profile, cos, sin) == Loads(0.0, 0.0, 0.0, 0.0)
  {
    hide Uniform, ClearOfEdge, Surface, TotalX, TotalY, TotalTwist, Priced, MaskedNodes, Squared;
    ConstantIsAffine(Surface(body), cp, c);
    AffinePressureForce(body, dx, dy, cp, 0.0, 0.0, c);
    ConstantPressureMoment(body, dx, dy, cp, c, profile);
    ZeroForceLoads(Surface(body), cp, profile, cos, sin, MaskedNodes(body), dx, dy);
  }

  lemma ConstantIsAffine(faces: seq<Face>, cp: seq<real>, c: real)
    requires Priced(faces, cp, Constant(c))
    ensures Priced(faces, cp, Affine(0.0, 0.0, c))
  {
  }

  lemma ZeroForceLoads(
    faces: seq<Face>, cp: seq<real>, profile: Profile, cos: real, sin: real, n: real, dx: real, dy: real)
    requires |faces| == |cp| && profile.chord > 0.0
    requires TotalX(faces, cp) == -0.0 * dx * dy * n && TotalY(faces, cp) == -0.0 * dy * dx * n
    requires TotalTwist(faces, cp, profile) == 0.0
    ensures SurfaceLoads(faces, cp, profile, cos, sin) == Loads(0.0, 0.0, 0.0, 0.0)
  {
    hide TotalX, TotalY, TotalTwist, Squared;
    assert TotalX(faces, cp) == 0.0 && TotalY(faces, cp) == 0.0;
    assert 0.0 / profile.chord == 0.0 && 0.0 / Squared(profile.chord) == 0.0;
  }

  function LeftEdge(body: Body): Term
    requires Shaped(body)
  {
    (i: int, j: int) => Flag(Masked(body, i, j) && j == 0)
  }

  function RightEdge(body: Body): Term
    requires Shaped(body)
  {
    (i: int, j: int) => Flag(Masked(body, i, j) && j == |body.x| - 1)
  }

  function BottomEdge(body: Body): Term
    requires Shaped(body)
  {
    (i: int, j: int) => Flag(Masked(body, i, j) && i == 0)
  }

  function TopEdge(body: Body): Term
    requires Shaped(body)
  {
    (i: int, j: int) => Flag(Masked(body, i, j) && i == |body.y| - 1)
  }

  /** Left less right, and bottom less top. */
  function AcrossColumns(body: Body): Term
    requires Shaped(body)
  {
    (i: int, j: int) =>
      Flag(Masked(body, i, j) && j == 0) - Flag(Masked(body, i, j) && j == |body.x| - 1)
  }

  function AcrossRows(body: Body): Term
    requires Shaped(body)
  {
    (i: int, j: int) =>
      Flag(Masked(body, i, j) && i == 0) - Flag(Masked(body, i, j) && i == |body.y| - 1)
  }

  lemma EdgeDifferences(body: Body)
    requires Shaped(body)
    ensures OverGrid(body, AcrossColumns(body))
            == OverGrid(body, LeftEdge(body)) - OverGrid(body, RightEdge(body))
    ensures OverGrid(body, AcrossRows(body))
            == OverGrid(body, BottomEdge(body)) - OverGrid(body, TopEdge(body))
  {
    hide Masked, Flag, GridSum;
    GridSumLinear(
      AcrossColumns(body), LeftEdge(body), RightEdge(body), 1.0, -1.0, 0, |body.y|, 0, |body.x|);
    GridSumLinear(
      AcrossRows(body), BottomEdge(body), TopEdge(body), 1.0, -1.0, 0, |body.y|, 0, |body.x|);
  }

  lemma GapSumX(body: Body, value: Term, k: real)
    requires Shaped(body) && forall m, l :: value(m, l) == -k
    ensures OverGrid(body, ColumnGap(body, value)) == k * OverGrid(body, AcrossColumns(body))
  {
    hide GridSum, Masked, Flag;
    forall i, j | 0 <= i < |body.y| && 0 <= j < |body.x|
      ensures ColumnGap(body, value)(i, j) == k * AcrossColumns(body)(i, j)
    {
      var near, far := Masked(body, i, j) && j == 0, Masked(body, i, j) && j == |body.x| - 1;
      FlagDifference(k, near, far);
      assert AcrossColumns(body)(i, j) == Flag(near) - Flag(far);
      assert ColumnGapAt(body, value, i, j) == (if far then -k else 0.0) - (if near then -k else 0.0);
    }
    GridSumScales(ColumnGap(body, value), AcrossColumns(body), k, 0, |body.y|, 0, |body.x|);
  }

  lemma GapSumY(body: Body, value: Term, k: real)
    requires Shaped(body) && forall m, l :: value(m, l) == -k
    ensures OverGrid(body, RowGap(body, value)) == k * OverGrid(body, AcrossRows(body))
  {
    hide GridSum, Masked, Flag;
    forall i, j | 0 <= i < |body.y| && 0 <= j < |body.x|
      ensures RowGap(body, value)(i, j) == k * AcrossRows(body)(i, j)
    {
      var near, far := Masked(body, i, j) && i == 0, Masked(body, i, j) && i == |body.y| - 1;
      FlagDifference(k, near, far);
      assert AcrossRows(body)(i, j) == Flag(near) - Flag(far);
      assert RowGapAt(body, value, i, j) == (if far then -k else 0.0) - (if near then -k else 0.0);
    }
    GridSumScales(RowGap(body, value), AcrossRows(body), k, 0, |body.y|, 0, |body.x|);
  }

  lemma FlagDifference(k: real, near: bool, far: bool)
    ensures k * (Flag(near) - Flag(far)) == (if far then -k else 0.0) - (if near then -k else 0.0)
  {
  }

  lemma ConstantPush(body: Body, dx: real, dy: real, c: real)
    requires Shaped(body)
    ensures forall k, l :: EastPushes(body, Affine(0.0, 0.0, c), dx, dy)(k, l) == -(c * dy)
    ensures forall k, l :: NorthPushes(body, Affine(0.0, 0.0, c), dx, dy)(k, l) == -(c * dx)
  {
    hide Mid, At;
    forall x: real, y: real
      ensures Affine(0.0, 0.0, c)(x, y) == c
    {
      assert 0.0 * x == 0.0 && 0.0 * y == 0.0;
    }
  }

  /** For a mask anywhere on the grid, a constant non-zero pressure pushes with no net force
      exactly when opposite edges of the grid carry equally many body nodes: the walk collects
      no face on the edge itself. */
  lemma ConstantPressureForceIff(
    body: Body, dx: real, dy: real, cp: seq<real>, c: real)
    requires Lattice(body, dx, dy) && c != 0.0
    requires Priced(Surface(body), cp, Constant(c))
    ensures TotalX(Surface(body), cp) == 0.0 && TotalY(Surface(body), cp) == 0.0
            <==> OverGrid(body, LeftEdge(body)) == OverGrid(body, RightEdge(body))
                 && OverGrid(body, BottomEdge(body)) == OverGrid(body, TopEdge(body))
  {
    hide Uniform, Surface, TotalX, TotalY, Priced, MaskedNodes, OverGrid;
    var p := Affine(0.0, 0.0, c);
    ConstantIsAffine(Surface(body), cp, c);
    ForceX(body, dx, dy, cp, p);
    ForceY(body, dx, dy, cp, p);
    ColumnChangeOfAffine(body, dx, dy, 0.0, 0.0, c);
    ConstantPush(body, dx, dy, c);
    GapSumX(body, EastPushes(body, p, dx, dy), c * dy);
    GapSumY(body, NorthPushes(body, p, dx, dy), c * dx);
    EdgeDifferences(body);
    NonZeroLoad(c, dy, OverGrid(body, AcrossColumns(body)));
    NonZeroLoad(c, dx, OverGrid(body, AcrossRows(body)));
    assert -0.0 * dx * dy * MaskedNodes(body) == 0.0 && -0.0 * dy * dx * MaskedNodes(body) == 0.0;
  }

  lemma NonZeroLoad(c: real, step: real, edges: real)
    requires c != 0.0 && step > 0.0
    ensures c * step * edges == 0.0 <==> edges == 0.0
  {
    NonZeroProduct(c, step);
    NonZeroProduct(c * step, edges);
  }

  lemma NonZeroProduct(a: real, b: real)
    requires a != 0.0
    ensures a * b == 0.0 <==> b == 0.0
  {
  }
}
