/**
 * The CPU ray tracer's test scene: `AddQuad` and `AddCube` append triangles
 * with texture coordinates, and `GenerateTestScene` builds a Cornell box of
 * six walls, a ceiling light and two boxes, with one surface property per
 * triangle. Coordinates are exact reals standing for the code's floats.
 */
module TestScene {

  datatype Vec3 = Vec3(x: real, y: real, z: real)

  function Add(a: Vec3, b: Vec3): Vec3
  {
    Vec3(a.x + b.x, a.y + b.y, a.z + b.z)
  }

  function Scale(k: real, a: Vec3): Vec3
  {
    Vec3(k * a.x, k * a.y, k * a.z)
  }

  const Zero: Vec3 := Vec3(0.0, 0.0, 0.0)

  datatype TexCoord = TexCoord(s: real, t: real)

  /** Vertices in groups of three, one triangle each, and a texture coordinate per vertex. */
  datatype Mesh = Mesh(vertices: seq<Vec3>, texCoords: seq<TexCoord>)

  const Empty: Mesh := Mesh([], [])

  function Concat(a: Mesh, b: Mesh): Mesh
  {
    Mesh(a.vertices + b.vertices, a.texCoords + b.texCoords)
  }

  predicate WellFormed(m: Mesh)
  {
    |m.vertices| == |m.texCoords|
  }

  /**
   * `AddQuad`: the quad a, b, c, d as triangles (a, b, c) and (a, c, d),
   * the corners carrying texture coordinates (0,0), (1,0), (1,1), (0,1).
   */
  function AddQuad(a: Vec3, b: Vec3, c: Vec3, d: Vec3): (m: Mesh)
    ensures WellFormed(m) && |m.vertices| == 6
  {
    Mesh([a, b, c, a, c, d], QuadTexCoords)
  }

  const QuadTexCoords: seq<TexCoord> :=
    [TexCoord(0.0, 0.0), TexCoord(1.0, 0.0), TexCoord(1.0, 1.0),
     TexCoord(0.0, 0.0), TexCoord(1.0, 1.0), TexCoord(0.0, 1.0)]

  /** The point at texture coordinate tc on the parallelogram spanned from a by e1 and e2. */
  function SurfacePoint(a: Vec3, e1: Vec3, e2: Vec3, tc: TexCoord): Vec3
  {
    Add(a, Add(Scale(tc.s, e1), Scale(tc.t, e2)))
  }

  /**
   * On a parallelogram quad the texture coordinates map the unit square onto
   * the quad: each vertex is the surface point of its coordinate.
   */
  lemma QuadMapsUnitSquare(a: Vec3, e1: Vec3, e2: Vec3)
    ensures var m := AddQuad(a, Add(a, e1), Add(Add(a, e1), e2), Add(a, e2));
      forall i :: 0 <= i < 6 ==> m.vertices[i] == SurfacePoint(a, e1, e2, m.texCoords[i])
  {
  }

  /** A corner of a box: whether it lies along u, along v and along w from the origin corner. */
  datatype Corner = Corner(alongU: bool, alongV: bool, alongW: bool)

  function Along(b: bool, e: Vec3): Vec3
  {
    if b then e else Zero
  }

  /** The corner c of the box spanned by u, v, w from p. */
  function BoxPoint(p: Vec3, u: Vec3, v: Vec3, w: Vec3, c: Corner): Vec3
  {
    Add(p, Add(Along(c.alongU, u), Add(Along(c.alongV, v), Along(c.alongW, w))))
  }

  /** Face f of `AddCube`: front, back, right, left, top, bottom. */
  function CubeFace(p: Vec3, u: Vec3, v: Vec3, w: Vec3, f: nat): (m: Mesh)
    ensures WellFormed(m) && |m.vertices| == 6
  {
    if f == 0 then AddQuad(p, Add(p, u), Add(Add(p, u), v), Add(p, v))
    else if f == 1 then AddQuad(Add(Add(p, u), w), Add(p, w), Add(Add(p, w), v), Add(Add(Add(p, u), v), w))
    else if f == 2 then AddQuad(Add(p, u), Add(Add(p, u), w), Add(Add(Add(p, u), w), v), Add(Add(p, u), v))
    else if f == 3 then AddQuad(Add(p, w), p, Add(p, v), Add(Add(p, w), v))
    else if f == 4 then AddQuad(p, Add(p, w), Add(Add(p, w), u), Add(p, u))
    else AddQuad(Add(p, v), Add(Add(p, v), u), Add(Add(Add(p, v), u), w), Add(Add(p, v), w))
  }

  /** The first n faces of a cube, in `AddCube`'s order. */
  function CubeFaces(p: Vec3, u: Vec3, v: Vec3, w: Vec3, n: nat): (m: Mesh)
    ensures WellFormed(m) && |m.vertices| == 6 * n
  {
    if n == 0 then Empty else Concat(CubeFaces(p, u, v, w, n - 1), CubeFace(p, u, v, w, n - 1))
  }

  /** `AddCube`: the six faces of the box spanned by u, v, w from p, 36 vertices. */
  function AddCube(p: Vec3, u: Vec3, v: Vec3, w: Vec3): (m: Mesh)
    ensures WellFormed(m) && |m.vertices| == 36
  {
    CubeFaces(p, u, v, w, 6)
  }

  /**
   * The box corner at texture-square corner tc of face f: each face fixes
   * one direction, and the texture axes run along the other two.
   */
  function FaceCorner(f: nat, tc: TexCoord): Corner
  {
    var s, t := tc.s == 1.0, tc.t == 1.0;
    if f == 0 then Corner(s, t, false)
    else if f == 1 then Corner(!s, t, true)
    else if f == 2 then Corner(true, t, s)
    else if f == 3 then Corner(false, t, !s)
    else if f == 4 then Corner(t, false, s)
    else Corner(s, true, t)
  }

  /**
   * A quad whose corners a, b, c, d sit at the points face f gives the unit
   * square's corners lies on that face, each vertex at its texture coordinate.
   */
  lemma QuadOnFace(p: Vec3, u: Vec3, v: Vec3, w: Vec3, f: nat, a: Vec3, b: Vec3, c: Vec3, d: Vec3)
    requires a == BoxPoint(p, u, v, w, FaceCorner(f, TexCoord(0.0, 0.0)))
    requires b == BoxPoint(p, u, v, w, FaceCorner(f, TexCoord(1.0, 0.0)))
    requires c == BoxPoint(p, u, v, w, FaceCorner(f, TexCoord(1.0, 1.0)))
    requires d == BoxPoint(p, u, v, w, FaceCorner(f, TexCoord(0.0, 1.0)))
    ensures var m := AddQuad(a, b, c, d);
      forall i :: 0 <= i < 6 ==> m.vertices[i] == BoxPoint(p, u, v, w, FaceCorner(f, m.texCoords[i]))
  {
    var m := AddQuad(a, b, c, d);
    forall i | 0 <= i < 6
      ensures m.vertices[i] == BoxPoint(p, u, v, w, FaceCorner(f, m.texCoords[i]))
    {
      assert m.vertices[i] == [a, b, c, a, c, d][i];
    }
  }

  lemma FrontFaceMapsUnitSquare(p: Vec3, u: Vec3, v: Vec3, w: Vec3)
    ensures var m := CubeFace(p, u, v, w, 0);
      forall i :: 0 <= i < 6 ==> m.vertices[i] == BoxPoint(p, u, v, w, FaceCorner(0, m.texCoords[i]))
  {
    assert p == BoxPoint(p, u, v, w, FaceCorner(0, TexCoord(0.0, 0.0)));
    assert Add(p, u) == BoxPoint(p, u, v, w, FaceCorner(0, TexCoord(1.0, 0.0)));
    assert Add(Add(p, u), v) == BoxPoint(p, u, v, w, FaceCorner(0, TexCoord(1.0, 1.0)));
    assert Add(p, v) == BoxPoint(p, u, v, w, FaceCorner(0, TexCoord(0.0, 1.0)));
    QuadOnFace(p, u, v, w, 0, p, Add(p, u), Add(Add(p, u), v), Add(p, v));
  }

  lemma BackFaceMapsUnitSquare(p: Vec3, u: Vec3, v: Vec3, w: Vec3)
    ensures var m := CubeFace(p, u, v, w, 1);
      forall i :: 0 <= i < 6 ==> m.vertices[i] == BoxPoint(p, u, v, w, FaceCorner(1, m.texCoords[i]))
  {
    assert Add(Add(p, u), w) == BoxPoint(p, u, v, w, FaceCorner(1, TexCoord(0.0, 0.0)));
    assert Add(p, w) == BoxPoint(p, u, v, w, FaceCorner(1, TexCoord(1.0, 0.0)));
    assert Add(Add(p, w), v) == BoxPoint(p, u, v, w, FaceCorner(1, TexCoord(1.0, 1.0)));
    assert Add(Add(Add(p, u), v), w) == BoxPoint(p, u, v, w, FaceCorner(1, TexCoord(0.0, 1.0)));
    QuadOnFace(p, u, v, w, 1, Add(Add(p, u), w), Add(p, w), Add(Add(p, w), v), Add(Add(Add(p, u), v), w));
  }

  lemma RightFaceMapsUnitSquare(p: Vec3, u: Vec3, v: Vec3, w: Vec3)
    ensures var m := CubeFace(p, u, v, w, 2);
      forall i :: 0 <= i < 6 ==> m.vertices[i] == BoxPoint(p, u, v, w, FaceCorner(2, m.texCoords[i]))
  {
    assert Add(p, u) == BoxPoint(p, u, v, w, FaceCorner(2, TexCoord(0.0, 0.0)));
    assert Add(Add(p, u), w) == BoxPoint(p, u, v, w, FaceCorner(2, TexCoord(1.0, 0.0)));
    assert Add(Add(Add(p, u), w), v) == BoxPoint(p, u, v, w, FaceCorner(2, TexCoord(1.0, 1.0)));
    assert Add(Add(p, u), v) == BoxPoint(p, u, v, w, FaceCorner(2, TexCoord(0.0, 1.0)));
    QuadOnFace(p, u, v, w, 2, Add(p, u), Add(Add(p, u), w), Add(Add(Add(p, u), w), v), Add(Add(p, u), v));
  }

  lemma LeftFaceMapsUnitSquare(p: Vec3, u: Vec3, v: Vec3, w: Vec3)
    ensures var m := CubeFace(p, u, v, w, 3);
      forall i :: 0 <= i < 6 ==> m.vertices[i] == BoxPoint(p, u, v, w, FaceCorner(3, m.texCoords[i]))
  {
    assert Add(p, w) == BoxPoint(p, u, v, w, FaceCorner(3, TexCoord(0.0, 0.0)));
    assert p == BoxPoint(p, u, v, w, FaceCorner(3, TexCoord(1.0, 0.0)));
    assert Add(p, v) == BoxPoint(p, u, v, w, FaceCorner(3, TexCoord(1.0, 1.0)));
    assert Add(Add(p, w), v) == BoxPoint(p, u, v, w, FaceCorner(3, TexCoord(0.0, 1.0)));
    QuadOnFace(p, u, v, w, 3, Add(p, w), p, Add(p, v), Add(Add(p, w), v));
  }

  lemma TopFaceMapsUnitSquare(p: Vec3, u: Vec3, v: Vec3, w: Vec3)
    ensures var m := CubeFace(p, u, v, w, 4);
      forall i :: 0 <= i < 6 ==> m.vertices[i] == BoxPoint(p, u, v, w, FaceCorner(4, m.texCoords[i]))
  {
    assert p == BoxPoint(p, u, v, w, FaceCorner(4, TexCoord(0.0, 0.0)));
    assert Add(p, w) == BoxPoint(p, u, v, w, FaceCorner(4, TexCoord(1.0, 0.0)));
    assert Add(Add(p, w), u) == BoxPoint(p, u, v, w, FaceCorner(4, TexCoord(1.0, 1.0)));
    assert Add(p, u) == BoxPoint(p, u, v, w, FaceCorner(4, TexCoord(0.0, 1.0)));
    QuadOnFace(p, u, v, w, 4, p, Add(p, w), Add(Add(p, w), u), Add(p, u));
  }

  lemma BottomFaceMapsUnitSquare(p: Vec3, u: Vec3, v: Vec3, w: Vec3)
    ensures var m := CubeFace(p, u, v, w, 5);
      forall i :: 0 <= i < 6 ==> m.vertices[i] == BoxPoint(p, u, v, w, FaceCorner(5, m.texCoords[i]))
  {
    assert Add(p, v) == BoxPoint(p, u, v, w, FaceCorner(5, TexCoord(0.0, 0.0)));
    assert Add(Add(p, v), u) == BoxPoint(p, u, v, w, FaceCorner(5, TexCoord(1.0, 0.0)));
    assert Add(Add(Add(p, v), u), w) == BoxPoint(p, u, v, w, FaceCorner(5, TexCoord(1.0, 1.0)));
    assert Add(Add(p, v), w) == BoxPoint(p, u, v, w, FaceCorner(5, TexCoord(0.0, 1.0)));
    QuadOnFace(p, u, v, w, 5, Add(p, v), Add(Add(p, v), u), Add(Add(Add(p, v), u), w), Add(Add(p, v), w));
  }

  lemma FaceMapsUnitSquare(p: Vec3, u: Vec3, v: Vec3, w: Vec3, f: nat)
    requires f < 6
    ensures var m := CubeFace(p, u, v, w, f);
      forall i :: 0 <= i < 6 ==> m.vertices[i] == BoxPoint(p, u, v, w, FaceCorner(f, m.texCoords[i]))
  {
    if f == 0 { FrontFaceMapsUnitSquare(p, u, v, w); }
    else if f == 1 { BackFaceMapsUnitSquare(p, u, v, w); }
    else if f == 2 { RightFaceMapsUnitSquare(p, u, v, w); }
    else if f == 3 { LeftFaceMapsUnitSquare(p, u, v, w); }
    else if f == 4 { TopFaceMapsUnitSquare(p, u, v, w); }
    else { BottomFaceMapsUnitSquare(p, u, v, w); }
  }

  /** Vertex k of m lies on box face k / 6, at the corner its texture coordinate names. */
  predicate OnBoxFaces(m: Mesh, p: Vec3, u: Vec3, v: Vec3, w: Vec3)
    requires WellFormed(m)
  {
    forall k :: 0 <= k < |m.vertices| ==> m.vertices[k] == BoxPoint(p, u, v, w, FaceCorner(k / 6, m.texCoords[k]))
  }

  lemma {:induction false} CubeFacesMapUnitSquare(p: Vec3, u: Vec3, v: Vec3, w: Vec3, n: nat)
    requires n <= 6
    ensures OnBoxFaces(CubeFaces(p, u, v, w, n), p, u, v, w)
  {
    if n > 0 {
      var front, face := CubeFaces(p, u, v, w, n - 1), CubeFace(p, u, v, w, n - 1);
      CubeFacesMapUnitSquare(p, u, v, w, n - 1);
      assert OnBoxFaces(front, p, u, v, w);
      FaceMapsUnitSquare(p, u, v, w, n - 1);
      var m := CubeFaces(p, u, v, w, n);
      assert m == Concat(front, face);
      forall k | 0 <= k < 6 * n
        ensures m.vertices[k] == BoxPoint(p, u, v, w, FaceCorner(k / 6, m.texCoords[k]))
      {
        if k < 6 * (n - 1) {
          assert m.vertices[k] == front.vertices[k] && m.texCoords[k] == front.texCoords[k];
        } else {
          var i := k - 6 * (n - 1);
          assert k / 6 == n - 1;
          assert m.vertices[k] == face.vertices[i] && m.texCoords[k] == face.texCoords[i];
        }
      }
    }
  }

  /**
   * Every face of `AddCube` is a face of the box: vertex k lies on face
   * k / 6, at the point its texture coordinate names.
   */
  lemma CubeMapsUnitSquare(p: Vec3, u: Vec3, v: Vec3, w: Vec3)
    ensures OnBoxFaces(AddCube(p, u, v, w), p, u, v, w)
  {
    assert AddCube(p, u, v, w) == CubeFaces(p, u, v, w, 6);
    CubeFacesMapUnitSquare(p, u, v, w, 6);
  }

  // ---------------------------------------------------------------------
  // The Cornell box.
  // ---------------------------------------------------------------------

  /** What `SurfaceProp` holds for one triangle; a negative texture means none. */
  datatype SurfaceProp = SurfaceProp(color: Vec3, reflectiveness: real, texture: int, emission: Vec3)

  datatype Scene = Scene(mesh: Mesh, props: seq<SurfaceProp>)

  const NumVertices: nat := 114
  const NoTexture: int := -1

  const Red: Vec3 := Vec3(1.0, 0.0, 0.0)
  const Green: Vec3 := Vec3(0.0, 1.0, 0.0)
  const White: Vec3 := Vec3(1.0, 1.0, 1.0)

  /** The warm room light, pumped up by 1.5. */
  const LightEmission: Vec3 := Scale(1.5, Vec3(1.0, 0.836, 0.664))

  /** A surface the initialising loop left untextured and dark, then painted. */
  function Painted(color: Vec3, reflectiveness: real): SurfaceProp
  {
    SurfaceProp(color, reflectiveness, NoTexture, Zero)
  }

  function Repeat(n: nat, prop: SurfaceProp): (r: seq<SurfaceProp>)
    ensures |r| == n && forall i :: 0 <= i < n ==> r[i] == prop
  {
    seq(n, _ => prop)
  }

  function LeftWall(): Mesh
  {
    AddQuad(Vec3(-2.5, 2.5, 0.0), Vec3(-2.5, 2.5, 5.0), Vec3(-2.5, -2.5, 5.0), Vec3(-2.5, -2.5, 0.0))
  }

  function RightWall(): Mesh
  {
    AddQuad(Vec3(2.5, 2.5, 5.0), Vec3(2.5, 2.5, 0.0), Vec3(2.5, -2.5, 0.0), Vec3(2.5, -2.5, 5.0))
  }

  function BackWall(): Mesh
  {
    AddQuad(Vec3(-2.5, 2.5, 5.0), Vec3(2.5, 2.5, 5.0), Vec3(2.5, -2.5, 5.0), Vec3(-2.5, -2.5, 5.0))
  }

  function FrontWall(): Mesh
  {
    AddQuad(Vec3(2.5, 2.5, 0.0), Vec3(-2.5, 2.5, 0.0), Vec3(-2.5, -2.5, 0.0), Vec3(2.5, -2.5, 0.0))
  }

  function Floor(): Mesh
  {
    AddQuad(Vec3(-2.5, -2.5, 5.0), Vec3(2.5, -2.5, 5.0), Vec3(2.5, -2.5, 0.0), Vec3(-2.5, -2.5, 0.0))
  }

  function Ceiling(): Mesh
  {
    AddQuad(Vec3(-2.5, 2.5, 0.0), Vec3(2.5, 2.5, 0.0), Vec3(2.5, 2.5, 5.0), Vec3(-2.5, 2.5, 5.0))
  }

  function CeilingLight(): Mesh
  {
    AddQuad(Vec3(-0.5, 2.495, 1.5), Vec3(0.5, 2.495, 1.5), Vec3(0.5, 2.495, 3.5), Vec3(-0.5, 2.495, 3.5))
  }

  /** The tall box in the back. */
  function TallBox(): Mesh
  {
    AddCube(Vec3(-1.2, 0.5, 2.25), Vec3(1.5, 0.0, 0.4), Vec3(0.0, -3.0, 0.0), Vec3(-0.4, 0.0, 1.5))
  }

  /** The small box in the front. */
  function SmallBox(): Mesh
  {
    AddCube(Vec3(0.0, -1.0, 0.5), Vec3(1.25, 0.0, -0.4), Vec3(0.0, -1.5, 0.0), Vec3(0.4, 0.0, 1.25))
  }

  /** The walls in the order the code adds them: left, right, back, front, floor, ceiling. */
  function Walls(): Mesh
  {
    Concat(Concat(Concat(LeftWall(), RightWall()), Concat(BackWall(), FrontWall())), Concat(Floor(), Ceiling()))
  }

  function SceneProps(): seq<SurfaceProp>
  {
    Repeat(2, Painted(Red, 1.0)) + Repeat(2, Painted(Green, 0.0)) + Repeat(8, Painted(White, 0.0))
    + Repeat(2, Painted(White, 0.0).(emission := LightEmission))
    + Repeat(12, Painted(White, 0.3).(texture := 0))
    + Repeat(12, Painted(White, 0.0))
  }

  /** `GenerateTestScene`. */
  function GenerateTestScene(): Scene
  {
    Scene(Concat(Concat(Concat(Walls(), CeilingLight()), TallBox()), SmallBox()), SceneProps())
  }

  /**
   * The code's own consistency checks hold: 114 vertices, one texture
   * coordinate each, and one surface property per triangle.
   */
  lemma SceneCounts()
    ensures var s := GenerateTestScene();
      |s.mesh.vertices| == NumVertices && WellFormed(s.mesh) && |s.props| == NumVertices / 3
  {
  }

  /** Only the tall box is textured, with texture 0, and only the ceiling light emits. */
  lemma SceneTexturesAndLight()
    ensures var s := GenerateTestScene();
      forall i :: 0 <= i < |s.props| ==>
        && (s.props[i].texture >= 0 <==> 14 <= i < 26)
        && (s.props[i].texture >= 0 ==> s.props[i].texture == 0)
        && (s.props[i].emission != Zero <==> 12 <= i < 14)
  {
    var props := GenerateTestScene().props;
    forall i | 0 <= i < |props|
      ensures props[i].texture >= 0 <==> 14 <= i < 26
      ensures props[i].texture >= 0 ==> props[i].texture == 0
      ensures props[i].emission != Zero <==> 12 <= i < 14
    {
      assert props[i] == (if i < 2 then Painted(Red, 1.0)
        else if i < 4 then Painted(Green, 0.0)
        else if i < 12 then Painted(White, 0.0)
        else if i < 14 then Painted(White, 0.0).(emission := LightEmission)
        else if i < 26 then Painted(White, 0.3).(texture := 0)
        else Painted(White, 0.0));
    }
  }

  /**
   * The left wall is red and fully reflective, the right wall green, every
   * other surface white; the tall box reflects 0.3 and the rest nothing.
   */
  lemma SceneColors()
    ensures var s := GenerateTestScene();
      forall i :: 0 <= i < |s.props| ==>
        && s.props[i].color == (if i < 2 then Red else if i < 4 then Green else White)
        && s.props[i].reflectiveness == (if i < 2 then 1.0 else if 14 <= i < 26 then 0.3 else 0.0)
  {
    var props := GenerateTestScene().props;
    forall i | 0 <= i < |props|
      ensures props[i].color == (if i < 2 then Red else if i < 4 then Green else White)
      ensures props[i].reflectiveness == (if i < 2 then 1.0 else if 14 <= i < 26 then 0.3 else 0.0)
    {
      assert props[i] == (if i < 2 then Painted(Red, 1.0)
        else if i < 4 then Painted(Green, 0.0)
        else if i < 12 then Painted(White, 0.0)
        else if i < 14 then Painted(White, 0.0).(emission := LightEmission)
        else if i < 26 then Painted(White, 0.3).(texture := 0)
        else Painted(White, 0.0));
    }
  }

  /**
   * The emitting triangles are the light quad, hanging level just below the
   * ceiling, and the textured triangles are the tall box.
   */
  lemma SceneLightAndTexturedBox()
    ensures var m := GenerateTestScene().mesh;
      && (forall k :: 36 <= k < 42 ==> m.vertices[k].y == 2.495)
      && m.vertices[42..78] == TallBox().vertices
  {
    var m := GenerateTestScene().mesh;
    var walls := Concat(Walls(), CeilingLight());
    assert |Walls().vertices| == 36;
    assert m.vertices == walls.vertices + TallBox().vertices + SmallBox().vertices;
    assert walls.vertices[36..42] == CeilingLight().vertices;
  }

  // ---------------------------------------------------------------------
  // Everything lies inside the box.
  // ---------------------------------------------------------------------

  /** Inside the Cornell box: x and y in [-2.5, 2.5], z in [0, 5]. */
  predicate InBox(a: Vec3)
  {
    -2.5 <= a.x <= 2.5 && -2.5 <= a.y <= 2.5 && 0.0 <= a.z <= 5.0
  }

  predicate AllInBox(m: Mesh)
  {
    forall k :: 0 <= k < |m.vertices| ==> InBox(m.vertices[k])
  }

  lemma ConcatInBox(a: Mesh, b: Mesh)
    requires AllInBox(a) && AllInBox(b)
    ensures AllInBox(Concat(a, b))
  {
    var m := Concat(a, b);
    forall k | 0 <= k < |m.vertices|
      ensures InBox(m.vertices[k])
    {
      if k >= |a.vertices| {
        assert m.vertices[k] == b.vertices[k - |a.vertices|];
      }
    }
  }

  /** A quad whose four corners are inside the box lies inside it. */
  lemma QuadInBox(a: Vec3, b: Vec3, c: Vec3, d: Vec3)
    requires InBox(a) && InBox(b) && InBox(c) && InBox(d)
    ensures AllInBox(AddQuad(a, b, c, d))
  {
  }

  /** Every corner of the box spanned by u, v, w from p is inside the Cornell box. */
  ghost predicate CornersInBox(p: Vec3, u: Vec3, v: Vec3, w: Vec3)
  {
    forall c: Corner :: InBox(BoxPoint(p, u, v, w, c))
  }

  /** A cube whose eight corners are inside the box lies inside it. */
  lemma CubeInBox(p: Vec3, u: Vec3, v: Vec3, w: Vec3)
    requires CornersInBox(p, u, v, w)
    ensures AllInBox(AddCube(p, u, v, w))
  {
    var m := AddCube(p, u, v, w);
    CubeMapsUnitSquare(p, u, v, w);
    forall k | 0 <= k < 36
      ensures InBox(m.vertices[k])
    {
      assert InBox(BoxPoint(p, u, v, w, FaceCorner(k / 6, m.texCoords[k])));
    }
  }

  lemma WallsInBox()
    ensures AllInBox(Walls()) && AllInBox(CeilingLight())
  {
    ConcatInBox(LeftWall(), RightWall());
    ConcatInBox(BackWall(), FrontWall());
    ConcatInBox(Floor(), Ceiling());
    ConcatInBox(Concat(LeftWall(), RightWall()), Concat(BackWall(), FrontWall()));
    ConcatInBox(Concat(Concat(LeftWall(), RightWall()), Concat(BackWall(), FrontWall())), Concat(Floor(), Ceiling()));
  }

  function MinZero(a: real): real
  {
    if a < 0.0 then a else 0.0
  }

  function MaxZero(a: real): real
  {
    if a > 0.0 then a else 0.0
  }

  /** Along one axis, every corner of the box from origin a with edges b, c, d lies in [lo, hi]. */
  predicate SpanWithin(lo: real, hi: real, a: real, b: real, c: real, d: real)
  {
    lo <= a + MinZero(b) + MinZero(c) + MinZero(d) && a + MaxZero(b) + MaxZero(c) + MaxZero(d) <= hi
  }

  predicate SpansWithinBox(p: Vec3, u: Vec3, v: Vec3, w: Vec3)
  {
    && SpanWithin(-2.5, 2.5, p.x, u.x, v.x, w.x)
    && SpanWithin(-2.5, 2.5, p.y, u.y, v.y, w.y)
    && SpanWithin(0.0, 5.0, p.z, u.z, v.z, w.z)
  }

  /** Along one axis, each choice of edges from the origin stays within the span. */
  lemma AxisWithin(lo: real, hi: real, a: real, b: real, c: real, d: real, tb: bool, tc: bool, td: bool)
    requires SpanWithin(lo, hi, a, b, c, d)
    ensures lo <= a + ((if tb then b else 0.0) + ((if tc then c else 0.0) + (if td then d else 0.0))) <= hi
  {
  }

  lemma CornerWithin(p: Vec3, u: Vec3, v: Vec3, w: Vec3, c: Corner)
    requires SpansWithinBox(p, u, v, w)
    ensures InBox(BoxPoint(p, u, v, w, c))
  {
    AxisWithin(-2.5, 2.5, p.x, u.x, v.x, w.x, c.alongU, c.alongV, c.alongW);
    AxisWithin(-2.5, 2.5, p.y, u.y, v.y, w.y, c.alongU, c.alongV, c.alongW);
    AxisWithin(0.0, 5.0, p.z, u.z, v.z, w.z, c.alongU, c.alongV, c.alongW);
  }

  lemma SpansGiveCorners(p: Vec3, u: Vec3, v: Vec3, w: Vec3)
    requires SpansWithinBox(p, u, v, w)
    ensures CornersInBox(p, u, v, w)
  {
    forall c: Corner
      ensures InBox(BoxPoint(p, u, v, w, c))
    {
      CornerWithin(p, u, v, w, c);
    }
  }

  lemma TallBoxCorners()
    ensures CornersInBox(Vec3(-1.2, 0.5, 2.25), Vec3(1.5, 0.0, 0.4), Vec3(0.0, -3.0, 0.0), Vec3(-0.4, 0.0, 1.5))
  {
    SpansGiveCorners(Vec3(-1.2, 0.5, 2.25), Vec3(1.5, 0.0, 0.4), Vec3(0.0, -3.0, 0.0), Vec3(-0.4, 0.0, 1.5));
  }

  lemma SmallBoxCorners()
    ensures CornersInBox(Vec3(0.0, -1.0, 0.5), Vec3(1.25, 0.0, -0.4), Vec3(0.0, -1.5, 0.0), Vec3(0.4, 0.0, 1.25))
  {
    SpansGiveCorners(Vec3(0.0, -1.0, 0.5), Vec3(1.25, 0.0, -0.4), Vec3(0.0, -1.5, 0.0), Vec3(0.4, 0.0, 1.25));
  }

  lemma TallBoxInBox()
    ensures AllInBox(TallBox())
  {
    TallBoxCorners();
    CubeInBox(Vec3(-1.2, 0.5, 2.25), Vec3(1.5, 0.0, 0.4), Vec3(0.0, -3.0, 0.0), Vec3(-0.4, 0.0, 1.5));
  }

  lemma SmallBoxInBox()
    ensures AllInBox(SmallBox())
  {
    SmallBoxCorners();
    CubeInBox(Vec3(0.0, -1.0, 0.5), Vec3(1.25, 0.0, -0.4), Vec3(0.0, -1.5, 0.0), Vec3(0.4, 0.0, 1.25));
  }

  /** Every vertex of the test scene, boxes and light included, lies inside the Cornell box. */
  lemma SceneInBox()
    ensures AllInBox(GenerateTestScene().mesh)
  {
    WallsInBox();
    TallBoxInBox();
    SmallBoxInBox();
    ConcatInBox(Walls(), CeilingLight());
    ConcatInBox(Concat(Walls(), CeilingLight()), TallBox());
    ConcatInBox(Concat(Concat(Walls(), CeilingLight()), TallBox()), SmallBox());
  }
}
