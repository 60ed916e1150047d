/**
  The NFF scene reader (raylib/NffParser.cs). Eric Haines's Neutral File Format is read
  line by line by a small state machine: in instruction mode the first token picks what
  the line describes; "v" starts a fixed sequence of viewpoint lines and "p n" a run of n
  vertex lines, after which the polygon is split into a triangle fan.

  Reading the file and splitting each line at spaces and tabs are outside the model: the
  input is the lines' token lists. double.Parse and int.Parse are the parameters
  `parseDouble` and `parseInt` (None where the source throws FormatException); a token the
  line does not have is the source's IndexOutOfRangeException. Either exception ends the
  parse, reported here as Failure with the index of the offending line.
 */
module NffParsers {
  import opened Wrappers
  import opened Vectors
  import opened Colors
  import opened Materials
  import opened Shapes
  import opened Scenes
  import opened RenderConfig
  import Boxes
  import Spheres
  import Triangles

  datatype LookingFor =
    | Instruction
    | ViewpointFrom
    | ViewpointAt
    | ViewpointUp
    | ViewpointAngle
    | ViewpointHither
    | ViewpointResolution
    | Polygon

  /** The number parsers and the square root the triangle constructor normalises with. */
  datatype ParseEnv = ParseEnv(parseDouble: string -> Option<real>, parseInt: string -> Option<int>, sqrt: real -> real)

  /** The arguments ParseFile passes to the Camera constructor. */
  datatype CameraSetup = CameraSetup(from: Vec, at: Vec, up: Vec, fov: real)

  /** NffParserResult. */
  datatype NffResult = NffResult(scene: Scene, renderData: RenderData, camera: CameraSetup)

  /** ParseFile's local variables between two lines. */
  datatype ParseState = ParseState(
    background: Background,
    lights: seq<Light>,
    shapes: seq<Shape>,
    cameraFrom: Vec,
    cameraAt: Vec,
    cameraUp: Vec,
    lookingFor: LookingFor,
    material: Material,
    polyVectors: seq<Vec>,
    counter: int)

  /** The all-zero solid material shapes get before the first "f" line. */
  const DefaultMaterial := NewSolid(0.0, 0.0, 0.0, 0.0, Black)

  /** The locals before the first line: black background with ambience 0, no lights or
      shapes, the camera vectors at the origin, instruction mode, the default material. */
  const InitialState := ParseState(Background(Black, 0.0), [], [], Origin, Origin, Origin,
                                   Instruction, DefaultMaterial, [], 0)

  /** The field of view every parsed camera gets. */
  const FieldOfView := 50.0

  // ----- Tokens -----

  /** split[0]. String.Split always yields at least one token; an empty token list is read
      as the single empty token it stands for. */
  function InstructionOf(line: seq<string>): string {
    if |line| == 0 then "" else line[0]
  }

  /** double.Parse(split[k]). */
  function Number(env: ParseEnv, line: seq<string>, k: nat): (r: Option<real>)
    ensures r.Some? ==> k < |line| && env.parseDouble(line[k]) == r
  {
    if k < |line| then env.parseDouble(line[k]) else None
  }

  /** Three numbers from split[k], split[k + 1] and split[k + 2]. */
  function Vector(env: ParseEnv, line: seq<string>, k: nat): (r: Option<Vec>)
    ensures r.Some? <==> Number(env, line, k).Some? && Number(env, line, k + 1).Some? && Number(env, line, k + 2).Some?
    ensures r.Some? ==> r.value == Vec(Number(env, line, k).value, Number(env, line, k + 1).value,
                                       Number(env, line, k + 2).value)
  {
    match (Number(env, line, k), Number(env, line, k + 1), Number(env, line, k + 2))
    case (Some(x), Some(y), Some(z)) => Some(Vec(x, y, z))
    case _ => None
  }

  /** The colour counterpart of Vector. */
  function ColorAt(env: ParseEnv, line: seq<string>, k: nat): (r: Option<Color>)
    ensures r.Some? <==> Vector(env, line, k).Some?
    ensures r.Some? ==> r.value == Color(Vector(env, line, k).value.x, Vector(env, line, k).value.y,
                                         Vector(env, line, k).value.z)
  {
    match Vector(env, line, k)
    case Some(v) => Some(Color(v.x, v.y, v.z))
    case None => None
  }

  // ----- What the lines add -----

  /** A shape as its constructor leaves it: Id 0 and no box yet (the empty default box
      stands for the null one until the scene registers the shape). */
  function NewShape(g: Geometry): Shape {
    Shape(0, Boxes.DefaultBox, g)
  }

  function SphereShape(center: Vec, radius: real, m: Material): Shape {
    NewShape(SphereGeom(Spheres.Sphere(center, radius, m)))
  }

  /** A polygon's triangles carry the current material on both faces. */
  function TriangleShape(a: Vec, b: Vec, c: Vec, m: Material, sqrt: real -> real): Shape {
    NewShape(TriangleGeom(Triangles.NewTriangle(a, b, c, m, m, sqrt)))
  }

  /** The fan over a polygon: (v0, v[i - 1], v[i]) for i = 2 .. k - 1, and nothing for fewer
      than three vertices. */
  function Fan(verts: seq<Vec>, m: Material, sqrt: real -> real): (r: seq<Shape>)
    ensures |verts| < 3 ==> r == []
    ensures |verts| >= 3 ==> |r| == |verts| - 2
  {
    if |verts| < 3 then []
    else seq(|verts| - 2, k requires 0 <= k < |verts| - 2 => TriangleShape(verts[0], verts[k + 1], verts[k + 2], m, sqrt))
  }

  // ----- One line -----

  /** A line never takes a shape or a light away: both lists only grow at the end. */
  predicate OnlyAdds(st: ParseState, next: ParseState) {
    st.shapes <= next.shapes && st.lights <= next.lights
  }

  /** A line read in instruction mode. */
  function InstructionStep(env: ParseEnv, st: ParseState, line: seq<string>): (r: Option<ParseState>)
    ensures r.Some? ==> OnlyAdds(st, r.value)
    ensures r.Some? && r.value.lookingFor != st.lookingFor ==> InstructionOf(line) in {"v", "p"}
    ensures r.Some? && r.value.background != st.background ==> InstructionOf(line) == "b"
    ensures InstructionOf(line) !in {"b", "v", "l", "f", "s", "p"} ==> r == Some(st)
  {
    var instruction := InstructionOf(line);
    if instruction == "b" then
      match ColorAt(env, line, 1)
      case Some(c) => Some(st.(background := Background(c, 0.0)))
      case None => None
    else if instruction == "v" then
      Some(st.(lookingFor := ViewpointFrom))
    else if instruction == "l" then
      var color := if |line| == 7 then ColorAt(env, line, 4) else Some(White);
      match (color, Vector(env, line, 1))
      case (Some(c), Some(p)) => Some(st.(lights := st.lights + [Light(0, p, c)]))
      case _ => None
    else if instruction == "f" then
      match (Number(env, line, 6), Number(env, line, 5), Number(env, line, 8), Number(env, line, 7), ColorAt(env, line, 1))
      case (Some(gloss), Some(reflection), Some(refraction), Some(transparency), Some(c)) =>
        Some(st.(material := NewSolid(gloss, reflection, refraction, transparency, c)))
      case _ => None
    else if instruction == "s" then
      match (Vector(env, line, 1), Number(env, line, 4))
      case (Some(center), Some(radius)) => Some(st.(shapes := st.shapes + [SphereShape(center, radius, st.material)]))
      case _ => None
    else if instruction == "p" then
      match (if 1 < |line| then env.parseInt(line[1]) else None)
      case Some(n) => Some(st.(counter := n, polyVectors := [], lookingFor := Polygon))
      case None => None
    else
      Some(st)
  }

  /** A line read in polygon mode: a vertex while the counter is positive, then, once it
      is zero, the fan and back to instruction mode. */
  function PolygonStep(env: ParseEnv, st: ParseState, line: seq<string>): (r: Option<ParseState>)
    ensures r.Some? ==> OnlyAdds(st, r.value) && r.value.lights == st.lights
    ensures r.None? ==> st.counter > 0 && Vector(env, line, 0).None?
    ensures r.Some? && r.value.counter == 0 ==> r.value.lookingFor == Instruction
  {
    var read :=
      if st.counter > 0 then
        match Vector(env, line, 0)
        case Some(v) => Some(st.(counter := st.counter - 1, polyVectors := st.polyVectors + [v]))
        case None => None
      else Some(st);
    match read
    case Some(s) =>
      if s.counter == 0 then Some(s.(shapes := s.shapes + Fan(s.polyVectors, s.material, env.sqrt), lookingFor := Instruction))
      else Some(s)
    case None => None
  }

  /** The body of the line loop: the switch on LookingFor. */
  function Step(env: ParseEnv, st: ParseState, line: seq<string>): (r: Option<ParseState>)
    ensures r.Some? ==> OnlyAdds(st, r.value)
    ensures r.None? ==> st.lookingFor in {Instruction, Polygon, ViewpointFrom, ViewpointAt, ViewpointUp}
  {
    match st.lookingFor
    case Instruction => InstructionStep(env, st, line)
    case Polygon => PolygonStep(env, st, line)
    case ViewpointFrom =>
      (match Vector(env, line, 1)
       case Some(v) => Some(st.(cameraFrom := v, lookingFor := ViewpointAt))
       case None => None)
    case ViewpointAt =>
      (match Vector(env, line, 1)
       case Some(v) => Some(st.(cameraAt := v, lookingFor := ViewpointUp))
       case None => None)
    case ViewpointUp =>
      (match Vector(env, line, 1)
       case Some(v) => Some(st.(cameraUp := v, lookingFor := ViewpointAngle))
       case None => None)
    case ViewpointAngle => Some(st.(lookingFor := ViewpointHither))
    case ViewpointHither => Some(st.(lookingFor := ViewpointResolution))
    case ViewpointResolution => Some(st.(lookingFor := Instruction))
  }

  /** The loop from line `from` on: the final locals, or the index of the line that threw. */
  function Run(env: ParseEnv, st: ParseState, lines: seq<seq<string>>, from: nat): (r: Result<ParseState, nat>)
    requires from <= |lines|
    ensures r.Failure? ==> from <= r.error < |lines|
    decreases |lines| - from
  {
    if from == |lines| then Success(st)
    else match Step(env, st, lines[from])
      case None => Failure(from)
      case Some(next) => Run(env, next, lines, from + 1)
  }

  /** Over a whole run the shapes and lights read so far are kept, in order: a parse only
      ever appends to them. */
  lemma {:induction false} RunOnlyAdds(env: ParseEnv, st: ParseState, lines: seq<seq<string>>, from: nat)
    requires from <= |lines|
    ensures Run(env, st, lines, from).Success? ==> OnlyAdds(st, Run(env, st, lines, from).value)
    decreases |lines| - from
  {
    if from < |lines| {
      match Step(env, st, lines[from])
      case None =>
      case Some(next) => RunOnlyAdds(env, next, lines, from + 1);
    }
  }

  /** What the parse returns once every line is read. */
  function Finish(st: ParseState, numThreads: int, rayTraceDepth: int, resolutionX: int, resolutionY: int): NffResult {
    NffResult(NewScene(st.background, st.shapes, st.lights),
              NewRenderData(resolutionX, resolutionY, rayTraceDepth, numThreads, true),
              CameraSetup(st.cameraFrom, st.cameraAt, st.cameraUp, FieldOfView))
  }

  /** ParseFile as a function of the lines. */
  function Parse(env: ParseEnv, lines: seq<seq<string>>, numThreads: int, rayTraceDepth: int,
                 resolutionX: int, resolutionY: int): (r: Result<NffResult, nat>)
    ensures r.Failure? ==> r.error < |lines|
  {
    match Run(env, InitialState, lines, 0)
    case Success(st) => Success(Finish(st, numThreads, rayTraceDepth, resolutionX, resolutionY))
    case Failure(i) => Failure(i)
  }

  // ----- The parser -----

  /** ParseFile: one pass over the lines, then the scene, the settings and the camera. */
  method ParseFile(env: ParseEnv, lines: seq<seq<string>>, numThreads: int, rayTraceDepth: int,
                   resolutionX: int, resolutionY: int) returns (r: Result<NffResult, nat>)
    ensures r == Parse(env, lines, numThreads, rayTraceDepth, resolutionX, resolutionY)
  {
    var st := InitialState;
    for i := 0 to |lines|
      invariant Run(env, InitialState, lines, 0) == Run(env, st, lines, i)
    {
      var next := ParseLine(env, st, lines[i]);
      if next.None? {
        return Failure(i);
      }
      st := next.value;
    }
    var scene := Create(st.background, st.shapes, st.lights);
    r := Success(NffResult(scene, NewRenderData(resolutionX, resolutionY, rayTraceDepth, numThreads, true),
                           CameraSetup(st.cameraFrom, st.cameraAt, st.cameraUp, FieldOfView)));
  }

  /** One iteration of the line loop. */
  method ParseLine(env: ParseEnv, st: ParseState, line: seq<string>) returns (r: Option<ParseState>)
    ensures r == Step(env, st, line)
  {
    match st.lookingFor {
      case Instruction =>
        r := ParseInstruction(env, st, line);
      case Polygon =>
        r := ParsePolygonLine(env, st, line);
      case ViewpointFrom =>
        var v := Vector(env, line, 1);
        if v.None? { return None; }
        r := Some(st.(cameraFrom := v.value, lookingFor := ViewpointAt));
      case ViewpointAt =>
        var v := Vector(env, line, 1);
        if v.None? { return None; }
        r := Some(st.(cameraAt := v.value, lookingFor := ViewpointUp));
      case ViewpointUp =>
        var v := Vector(env, line, 1);
        if v.None? { return None; }
        r := Some(st.(cameraUp := v.value, lookingFor := ViewpointAngle));
      case ViewpointAngle =>
        r := Some(st.(lookingFor := ViewpointHither));
      case ViewpointHither =>
        r := Some(st.(lookingFor := ViewpointResolution));
      case ViewpointResolution =>
        r := Some(st.(lookingFor := Instruction));
    }
  }

  /** The instruction-mode branch of the loop body. */
  method ParseInstruction(env: ParseEnv, st: ParseState, line: seq<string>) returns (r: Option<ParseState>)
    ensures r == InstructionStep(env, st, line)
  {
    var instruction := InstructionOf(line);
    r := Some(st);
    if instruction == "b" {
      var c := ColorAt(env, line, 1);
      if c.None? { return None; }
      r := Some(st.(background := Background(c.value, 0.0)));
    } else if instruction == "v" {
      r := Some(st.(lookingFor := ViewpointFrom));
    } else if instruction == "l" {
      var color := if |line| == 7 then ColorAt(env, line, 4) else Some(White);
      var position := Vector(env, line, 1);
      if color.None? || position.None? { return None; }
      r := Some(st.(lights := st.lights + [Light(0, position.value, color.value)]));
    } else if instruction == "f" {
      var gloss, reflection := Number(env, line, 6), Number(env, line, 5);
      var refraction, transparency := Number(env, line, 8), Number(env, line, 7);
      var c := ColorAt(env, line, 1);
      if gloss.None? || reflection.None? || refraction.None? || transparency.None? || c.None? { return None; }
      r := Some(st.(material := NewSolid(gloss.value, reflection.value, refraction.value, transparency.value, c.value)));
    } else if instruction == "s" {
      var center, radius := Vector(env, line, 1), Number(env, line, 4);
      if center.None? || radius.None? { return None; }
      r := Some(st.(shapes := st.shapes + [SphereShape(center.value, radius.value, st.material)]));
    } else if instruction == "p" {
      var n := if 1 < |line| then env.parseInt(line[1]) else None;
      if n.None? { return None; }
      r := Some(st.(counter := n.value, polyVectors := [], lookingFor := Polygon));
    }
  }

  /** The polygon-mode branch of the loop body. */
  method ParsePolygonLine(env: ParseEnv, st: ParseState, line: seq<string>) returns (r: Option<ParseState>)
    ensures r == PolygonStep(env, st, line)
  {
    var counter, polyVectors := st.counter, st.polyVectors;
    if counter > 0 {
      counter := counter - 1;
      var v := Vector(env, line, 0);
      if v.None? { return None; }
      polyVectors := polyVectors + [v.value];
    }
    var s := st.(counter := counter, polyVectors := polyVectors);
    if counter == 0 {
      var shapes := AddFan(s.shapes, polyVectors, s.material, env.sqrt);
      s := s.(shapes := shapes, lookingFor := Instruction);
    }
    r := Some(s);
  }

  /** The fan loop: the first triangle from the first three vertices, then one more per
      further vertex, each sharing the first vertex and the previous one. */
  method AddFan(shapes: seq<Shape>, polyVectors: seq<Vec>, m: Material, sqrt: real -> real) returns (r: seq<Shape>)
    ensures r == shapes + Fan(polyVectors, m, sqrt)
  {
    r := shapes;
    if |polyVectors| >= 3 {
      var firstVert, prevVert, thisVert := polyVectors[0], polyVectors[1], polyVectors[2];
      r := r + [TriangleShape(firstVert, prevVert, thisVert, m, sqrt)];
      assert r == shapes + Fan(polyVectors[..3], m, sqrt);
      for i := 3 to |polyVectors|
        invariant thisVert == polyVectors[i - 1]
        invariant r == shapes + Fan(polyVectors[..i], m, sqrt)
      {
        prevVert := thisVert;
        thisVert := polyVectors[i];
        r := r + [TriangleShape(firstVert, prevVert, thisVert, m, sqrt)];
        FanStep(polyVectors, i, m, sqrt);
      }
      assert polyVectors[..|polyVectors|] == polyVectors;
    }
  }

  /** One more vertex adds one more triangle to the fan. */
  lemma FanStep(verts: seq<Vec>, i: int, m: Material, sqrt: real -> real)
    requires 3 <= i < |verts|
    ensures Fan(verts[..i + 1], m, sqrt) == Fan(verts[..i], m, sqrt) + [TriangleShape(verts[0], verts[i - 1], verts[i], m, sqrt)]
  {
    var a, b := Fan(verts[..i + 1], m, sqrt), Fan(verts[..i], m, sqrt);
    assert forall k :: 0 <= k < |b| ==> a[k] == b[k];
  }

  // ----- Properties -----

  /** A polygon of k >= 3 vertices yields exactly k - 2 triangles, the one for vertex i being
      (v0, v[i - 1], v[i]) with the current material on both faces. */
  lemma FanTriangles(verts: seq<Vec>, m: Material, sqrt: real -> real)
    requires |verts| >= 3
    ensures |Fan(verts, m, sqrt)| == |verts| - 2
    ensures forall i :: 2 <= i < |verts| ==>
              Fan(verts, m, sqrt)[i - 2] == NewShape(TriangleGeom(Triangles.NewTriangle(verts[0], verts[i - 1], verts[i], m, m, sqrt)))
  {
    var f := Fan(verts, m, sqrt);
    forall i | 2 <= i < |verts|
      ensures f[i - 2] == NewShape(TriangleGeom(Triangles.NewTriangle(verts[0], verts[i - 1], verts[i], m, m, sqrt)))
    {
      assert f[i - 2] == TriangleShape(verts[0], verts[i - 2 + 1], verts[i - 2 + 2], m, sqrt);
    }
  }

  /** A "v" line starts the viewpoint sequence: the next three lines give from, at and up,
      the three after them are skipped, and instruction mode resumes with nothing else
      changed. */
  lemma {:induction false} ViewpointSequence(env: ParseEnv, st: ParseState, lines: seq<seq<string>>, from: nat)
    requires st.lookingFor == Instruction
    requires from + 7 <= |lines| && InstructionOf(lines[from]) == "v"
    requires Vector(env, lines[from + 1], 1).Some? && Vector(env, lines[from + 2], 1).Some?
    requires Vector(env, lines[from + 3], 1).Some?
    ensures Run(env, st, lines, from) ==
            Run(env, st.(cameraFrom := Vector(env, lines[from + 1], 1).value,
                         cameraAt := Vector(env, lines[from + 2], 1).value,
                         cameraUp := Vector(env, lines[from + 3], 1).value), lines, from + 7)
  {
    var s1 := st.(lookingFor := ViewpointFrom);
    var s2 := s1.(cameraFrom := Vector(env, lines[from + 1], 1).value, lookingFor := ViewpointAt);
    var s3 := s2.(cameraAt := Vector(env, lines[from + 2], 1).value, lookingFor := ViewpointUp);
    var s4 := s3.(cameraUp := Vector(env, lines[from + 3], 1).value, lookingFor := ViewpointAngle);
    var s5 := s4.(lookingFor := ViewpointHither);
    var s6 := s5.(lookingFor := ViewpointResolution);
    var s7 := s6.(lookingFor := Instruction);
    assert Run(env, st, lines, from) == Run(env, s1, lines, from + 1);
    assert Run(env, s1, lines, from + 1) == Run(env, s2, lines, from + 2);
    assert Run(env, s2, lines, from + 2) == Run(env, s3, lines, from + 3);
    assert Run(env, s3, lines, from + 3) == Run(env, s4, lines, from + 4);
    assert Run(env, s4, lines, from + 4) == Run(env, s5, lines, from + 5);
    assert Run(env, s5, lines, from + 5) == Run(env, s6, lines, from + 6);
    assert Run(env, s6, lines, from + 6) == Run(env, s7, lines, from + 7);
  }

  /** A viewpoint line that gives a vector fails exactly when one of split[1..3] is missing
      or does not parse; the angle, hither and resolution lines are never read. */
  lemma ViewpointLines(env: ParseEnv, st: ParseState, line: seq<string>)
    ensures st.lookingFor in {ViewpointFrom, ViewpointAt, ViewpointUp} ==>
              (Step(env, st, line).None? <==> Vector(env, line, 1).None?)
    ensures st.lookingFor == ViewpointAngle ==> Step(env, st, line) == Some(st.(lookingFor := ViewpointHither))
    ensures st.lookingFor == ViewpointHither ==> Step(env, st, line) == Some(st.(lookingFor := ViewpointResolution))
    ensures st.lookingFor == ViewpointResolution ==> Step(env, st, line) == Some(st.(lookingFor := Instruction))
  {
  }

  /** The locals once the n-th vertex line of a polygon is read: the vertices collected, the
      fan over them added with the current material, instruction mode again. */
  function AfterPolygon(st: ParseState, verts: seq<Vec>, sqrt: real -> real): ParseState {
    st.(counter := 0, polyVectors := st.polyVectors + verts, lookingFor := Instruction,
        shapes := st.shapes + Fan(st.polyVectors + verts, st.material, sqrt))
  }

  /** "p n" sets the counter to n, clears the vertex list and switches to polygon mode; it
      fails exactly when split[1] is missing or is not an integer. */
  lemma PolygonLine(env: ParseEnv, st: ParseState, line: seq<string>)
    requires st.lookingFor == Instruction && InstructionOf(line) == "p"
    ensures Step(env, st, line).Some? <==> 1 < |line| && env.parseInt(line[1]).Some?
    ensures Step(env, st, line).Some? ==>
              Step(env, st, line) == Some(st.(counter := env.parseInt(line[1]).value, polyVectors := [], lookingFor := Polygon))
  {
  }

  /** The locals after a vertex line that is not the polygon's last. */
  function WithVertex(st: ParseState, v: Vec): ParseState {
    st.(counter := st.counter - 1, polyVectors := st.polyVectors + [v])
  }

  /** One vertex line read in polygon mode. */
  lemma VertexLine(env: ParseEnv, st: ParseState, line: seq<string>, v: Vec)
    requires st.lookingFor == Polygon && st.counter > 0 && Vector(env, line, 0) == Some(v)
    ensures Step(env, st, line) == Some(if st.counter == 1 then AfterPolygon(st, [v], env.sqrt) else WithVertex(st, v))
  {
  }

  /** After "p n" come n vertex lines: each appends its vertex, and after the n-th the fan
      over the collected vertices is added with the current material and instruction mode
      resumes. */
  lemma {:induction false} PolygonVertices(env: ParseEnv, st: ParseState, lines: seq<seq<string>>, from: nat, verts: seq<Vec>)
    requires st.lookingFor == Polygon && st.counter == |verts| > 0
    requires from + |verts| <= |lines|
    requires forall j :: 0 <= j < |verts| ==> Vector(env, lines[from + j], 0) == Some(verts[j])
    ensures Run(env, st, lines, from) == Run(env, AfterPolygon(st, verts, env.sqrt), lines, from + |verts|)
    decreases |verts|
  {
    if |verts| == 1 {
      assert Vector(env, lines[from], 0) == Some(verts[0]);
      VertexLine(env, st, lines[from], verts[0]);
      assert verts == [verts[0]];
      RunStep(env, st, lines, from, AfterPolygon(st, verts, env.sqrt));
    } else {
      var next := WithVertex(st, verts[0]);
      FirstVertex(env, st, lines, from, verts);
      PolygonVertices(env, next, lines, from + 1, verts[1..]);
    }
  }

  /** The first of several vertex lines: the rest of the polygon is read from the next line
      on, and ends in the same locals. */
  lemma FirstVertex(env: ParseEnv, st: ParseState, lines: seq<seq<string>>, from: nat, verts: seq<Vec>)
    requires st.lookingFor == Polygon && st.counter == |verts| > 1
    requires from + |verts| <= |lines|
    requires forall j :: 0 <= j < |verts| ==> Vector(env, lines[from + j], 0) == Some(verts[j])
    ensures Run(env, st, lines, from) == Run(env, WithVertex(st, verts[0]), lines, from + 1)
    ensures forall j :: 0 <= j < |verts| - 1 ==> Vector(env, lines[from + 1 + j], 0) == Some(verts[1..][j])
    ensures AfterPolygon(WithVertex(st, verts[0]), verts[1..], env.sqrt) == AfterPolygon(st, verts, env.sqrt)
  {
    assert Vector(env, lines[from], 0) == Some(verts[0]);
    VertexLine(env, st, lines[from], verts[0]);
    RunStep(env, st, lines, from, WithVertex(st, verts[0]));
    forall j | 0 <= j < |verts| - 1
      ensures Vector(env, lines[from + 1 + j], 0) == Some(verts[1..][j])
    {
      assert Vector(env, lines[from + (j + 1)], 0) == Some(verts[j + 1]);
    }
    AppendFirst(st.polyVectors, verts);
  }

  lemma AppendFirst(a: seq<Vec>, verts: seq<Vec>)
    requires |verts| > 0
    ensures (a + [verts[0]]) + verts[1..] == a + verts
  {
    assert verts == [verts[0]] + verts[1..];
  }

  /** A line that is read without error hands its locals on to the next. */
  lemma RunStep(env: ParseEnv, st: ParseState, lines: seq<seq<string>>, from: nat, next: ParseState)
    requires from < |lines| && Step(env, st, lines[from]) == Some(next)
    ensures Run(env, st, lines, from) == Run(env, next, lines, from + 1)
  {
  }

  /** "p n" with n >= 1 followed by n vertex lines adds the fan over those vertices, which for
      n >= 3 is n - 2 triangles, and leaves the parser in instruction mode. */
  lemma {:induction false} PolygonTriangulated(env: ParseEnv, st: ParseState, lines: seq<seq<string>>, from: nat, verts: seq<Vec>)
    requires st.lookingFor == Instruction
    requires from + 1 + |verts| <= |lines| && |verts| > 0
    requires InstructionOf(lines[from]) == "p" && 1 < |lines[from]| && env.parseInt(lines[from][1]) == Some(|verts|)
    requires forall j :: 0 <= j < |verts| ==> Vector(env, lines[from + 1 + j], 0) == Some(verts[j])
    ensures Run(env, st, lines, from) ==
            Run(env, st.(counter := 0, polyVectors := verts, lookingFor := Instruction,
                         shapes := st.shapes + Fan(verts, st.material, env.sqrt)),
                lines, from + 1 + |verts|)
  {
    var p := st.(counter := |verts|, polyVectors := [], lookingFor := Polygon);
    PolygonLine(env, st, lines[from]);
    RunStep(env, st, lines, from, p);
    PolygonVertices(env, p, lines, from + 1, verts);
    assert p.polyVectors + verts == verts;
    assert AfterPolygon(p, verts, env.sqrt)
           == st.(counter := 0, polyVectors := verts, lookingFor := Instruction,
                  shapes := st.shapes + Fan(verts, st.material, env.sqrt));
  }

  /** "p 0" swallows the next line whatever it holds, reads no vertex and adds no shape. */
  lemma EmptyPolygonSwallowsLine(env: ParseEnv, st: ParseState, line: seq<string>)
    requires st.lookingFor == Polygon && st.counter == 0 && st.polyVectors == []
    ensures Step(env, st, line) == Some(st.(lookingFor := Instruction))
  {
    assert st.shapes + [] == st.shapes;
  }

  /** A negative count never reaches zero: every later line is swallowed and the parse ends
      in polygon mode with nothing more added. */
  lemma {:induction false} NegativeCountSwallowsRest(env: ParseEnv, st: ParseState, lines: seq<seq<string>>, from: nat)
    requires st.lookingFor == Polygon && st.counter < 0
    requires from <= |lines|
    ensures Run(env, st, lines, from) == Success(st)
    decreases |lines| - from
  {
    if from < |lines| {
      assert Step(env, st, lines[from]) == Some(st);
      NegativeCountSwallowsRest(env, st, lines, from + 1);
    }
  }

  /** "s" appends a sphere with the current material: the most recent "f", or the all-zero
      default; it fails exactly when split[1..4] are not all there as numbers. */
  lemma SphereLine(env: ParseEnv, st: ParseState, line: seq<string>)
    requires st.lookingFor == Instruction && InstructionOf(line) == "s"
    ensures Step(env, st, line).Some? <==> Vector(env, line, 1).Some? && Number(env, line, 4).Some?
    ensures Step(env, st, line).Some? ==>
              Step(env, st, line).value ==
              st.(shapes := st.shapes + [NewShape(SphereGeom(Spheres.Sphere(Vector(env, line, 1).value,
                                                                            Number(env, line, 4).value, st.material)))])
  {
  }

  /** "f" replaces the current material with a solid one: colour from split[1..3], gloss from
      split[6], reflection from split[5], refraction from split[8], transparency from split[7]
      (split[4], Kd, is not used). */
  lemma MaterialLine(env: ParseEnv, st: ParseState, line: seq<string>)
    requires st.lookingFor == Instruction && InstructionOf(line) == "f"
    ensures Step(env, st, line).Some? <==>
              Number(env, line, 5).Some? && Number(env, line, 6).Some? && Number(env, line, 7).Some?
              && Number(env, line, 8).Some? && Vector(env, line, 1).Some?
    ensures Step(env, st, line).Some? ==>
              var m := Step(env, st, line).value.material;
              Step(env, st, line).value == st.(material := m)
              && m.gloss == Number(env, line, 6).value && m.reflection == Number(env, line, 5).value
              && m.refraction == Number(env, line, 8).value && m.transparency == Number(env, line, 7).value
              && forall u: real, v: real :: GetColor(m, u, v) == ColorAt(env, line, 1).value
  {
  }

  /** "l" adds a light at split[1..3]; its colour is split[4..6] when the line has exactly seven
      tokens and white otherwise. */
  lemma LightLine(env: ParseEnv, st: ParseState, line: seq<string>)
    requires st.lookingFor == Instruction && InstructionOf(line) == "l"
    ensures |line| != 7 ==> (Step(env, st, line).Some? <==> Vector(env, line, 1).Some?)
    ensures |line| == 7 ==> (Step(env, st, line).Some? <==> Vector(env, line, 1).Some? && Vector(env, line, 4).Some?)
    ensures Step(env, st, line).Some? ==>
              Step(env, st, line).value == st.(lights := st.lights + [Light(0, Vector(env, line, 1).value,
                                                 if |line| == 7 then ColorAt(env, line, 4).value else White)])
  {
  }

  /** "b" replaces the background, with ambience 0; "v" only switches the mode; "#", "c",
      "pp" and every unknown instruction change nothing. */
  lemma OtherInstructions(env: ParseEnv, st: ParseState, line: seq<string>)
    requires st.lookingFor == Instruction
    ensures InstructionOf(line) == "b" ==>
              Step(env, st, line) == if ColorAt(env, line, 1).Some? then Some(st.(background := Background(ColorAt(env, line, 1).value, 0.0))) else None
    ensures InstructionOf(line) == "v" ==> Step(env, st, line) == Some(st.(lookingFor := ViewpointFrom))
    ensures InstructionOf(line) !in {"b", "v", "l", "f", "s", "p"} ==> Step(env, st, line) == Some(st)
  {
  }

  /** Whatever the file holds, a successful parse takes the resolution, depth and thread count
      from the arguments with every effect on, fixes the field of view at 50 and builds the
      scene from the shapes and lights read, in file order. */
  lemma ParseResult(env: ParseEnv, lines: seq<seq<string>>, numThreads: int, rayTraceDepth: int,
                    resolutionX: int, resolutionY: int)
    ensures var r := Parse(env, lines, numThreads, rayTraceDepth, resolutionX, resolutionY);
            r.Success? <==> Run(env, InitialState, lines, 0).Success?
    ensures var r := Parse(env, lines, numThreads, rayTraceDepth, resolutionX, resolutionY);
            r.Success? ==>
              var st := Run(env, InitialState, lines, 0).value;
              r.value.renderData.width == resolutionX && r.value.renderData.height == resolutionY
              && r.value.renderData.rayTraceDepth == rayTraceDepth && r.value.renderData.numThreads == numThreads
              && r.value.renderData.threadPerLine && AllEffectsOn(r.value.renderData)
              && r.value.camera == CameraSetup(st.cameraFrom, st.cameraAt, st.cameraUp, 50.0)
              && r.value.scene == NewScene(st.background, st.shapes, st.lights)
  {
  }

  /** An empty file gives the initial locals: a black background, no shapes or lights and
      the camera vectors at the origin. */
  lemma EmptyFile(env: ParseEnv, numThreads: int, rayTraceDepth: int, resolutionX: int, resolutionY: int)
    ensures Parse(env, [], numThreads, rayTraceDepth, resolutionX, resolutionY)
            == Success(Finish(InitialState, numThreads, rayTraceDepth, resolutionX, resolutionY))
  {
  }
}
