/**
 * The walk of `flattenPath` over a whole source path and the `path_flatten`
 * native function around it. The walk copies `move_to` and `line_to`,
 * replaces every quadratic and cubic segment by the polyline its subdivision
 * yields, emits `close` only inside a figure, skips every other command, and
 * fails on a curve whose continuation commands are missing.
 */
module PathWalk {
  import opened Common
  import opened Terms
  import opened PathFlatten

  /**
   * How a walk ends: `BL_SUCCESS`, `BL_ERROR_INVALID_STATE`, or a subdivision
   * that never returns (the fuel of a segment ran out).
   */
  datatype Status = Flattened | InvalidState | Exhausted

  /** What a walk emits into the destination path, and how it ends. */
  datatype Walk = Walk(status: Status, cmds: seq<Byte>, vtx: seq<Point>)

  /** Commands emitted before a walk come before everything it emits. */
  function Prepend(cmds: seq<Byte>, vtx: seq<Point>, w: Walk): Walk
  {
    Walk(w.status, cmds + w.cmds, vtx + w.vtx)
  }

  /** The walk's state: the current point, the start of the figure, and whether a figure is open. */
  datatype Cursor = Cursor(lastOn: Point, subStart: Point, hasSub: bool)

  const START: Cursor := Cursor(ORIGIN, ORIGIN, false)

  /** The walk from command `i` on, in state `at`; each curve may split `fuel` levels deep. */
  function FlattenFrom(cmds: seq<Byte>, vtx: seq<Point>, i: nat, at: Cursor, tol: real, fuel: nat): Walk
    requires |cmds| == |vtx| && i <= |cmds|
    decreases |cmds| - i
  {
    if i == |cmds| then Walk(Flattened, [], [])
    else if cmds[i] == CMD_MOVE then
      Prepend([CMD_MOVE], [vtx[i]], FlattenFrom(cmds, vtx, i + 1, Cursor(vtx[i], vtx[i], true), tol, fuel))
    else if cmds[i] == CMD_ON then
      Prepend([CMD_ON], [vtx[i]], FlattenFrom(cmds, vtx, i + 1, at.(lastOn := vtx[i]), tol, fuel))
    else if cmds[i] == CMD_QUAD then
      if i + 1 >= |cmds| || cmds[i + 1] != CMD_ON then Walk(InvalidState, [], [])
      else
        var p := QuadPieces(Quad(at.lastOn, vtx[i], vtx[i + 1]), tol, fuel);
        if !p.complete then Walk(Exhausted, Lines(|p.ends|), p.ends)
        else Prepend(Lines(|p.ends|), p.ends, FlattenFrom(cmds, vtx, i + 2, at.(lastOn := vtx[i + 1]), tol, fuel))
    else if cmds[i] == CMD_CUBIC then
      if i + 2 >= |cmds| || cmds[i + 1] != CMD_CUBIC || cmds[i + 2] != CMD_ON then Walk(InvalidState, [], [])
      else
        var p := CubicPieces(Cubic(at.lastOn, vtx[i], vtx[i + 1], vtx[i + 2]), tol, fuel);
        if !p.complete then Walk(Exhausted, Lines(|p.ends|), p.ends)
        else Prepend(Lines(|p.ends|), p.ends, FlattenFrom(cmds, vtx, i + 3, at.(lastOn := vtx[i + 2]), tol, fuel))
    else if cmds[i] == CMD_CLOSE && at.hasSub then
      Prepend([CMD_CLOSE], [CLOSE_VERTEX], FlattenFrom(cmds, vtx, i + 1, at.(lastOn := at.subStart), tol, fuel))
    else
      FlattenFrom(cmds, vtx, i + 1, at, tol, fuel)
  }

  /** The whole walk of `flattenPath`, from the origin with no figure open. */
  function FlattenOf(cmds: seq<Byte>, vtx: seq<Point>, tol: real, fuel: nat): Walk
    requires |cmds| == |vtx|
  {
    FlattenFrom(cmds, vtx, 0, START, tol, fuel)
  }

  lemma PrependPrepend(c0: seq<Byte>, v0: seq<Point>, c1: seq<Byte>, v1: seq<Point>, w: Walk)
    ensures Prepend(c0, v0, Prepend(c1, v1, w)) == Prepend(c0 + c1, v0 + v1, w)
  {
    assert c0 + (c1 + w.cmds) == (c0 + c1) + w.cmds;
    assert v0 + (v1 + w.vtx) == (v0 + v1) + w.vtx;
  }

  /**
   * `flattenPath`: clear `dst`, then write into it the flattened commands of
   * `src`. A segment whose subdivision runs out of fuel ends the walk with
   * `Exhausted`, standing for a recursion that does not return.
   */
  method FlattenPath(src: Path, dst: Path, tol: real, fuel: nat) returns (status: Status)
    requires src != dst && src.Valid()
    modifies dst
    ensures dst.Valid()
    ensures status == FlattenOf(src.cmds, src.vtx, tol, fuel).status
    ensures dst.cmds == FlattenOf(src.cmds, src.vtx, tol, fuel).cmds
    ensures dst.vtx == FlattenOf(src.cmds, src.vtx, tol, fuel).vtx
  {
    dst.Clear();
    var n := |src.cmds|;
    var cmdData, vtxData := src.cmds, src.vtx;
    var lastOn, subStart, hasSub := ORIGIN, ORIGIN, false;
    ghost var whole := FlattenOf(cmdData, vtxData, tol, fuel);
    var i := 0;
    while i < n
      invariant 0 <= i <= n && dst.Valid()
      invariant whole == Prepend(dst.cmds, dst.vtx, FlattenFrom(cmdData, vtxData, i, Cursor(lastOn, subStart, hasSub), tol, fuel))
    {
      var cmd, v := cmdData[i], vtxData[i];
      ghost var at := Cursor(lastOn, subStart, hasSub);
      ghost var cmds0, vtx0 := dst.cmds, dst.vtx;
      if cmd == CMD_MOVE {
        dst.MoveTo(v);
        lastOn, subStart, hasSub := v, v, true;
        PrependPrepend(cmds0, vtx0, [CMD_MOVE], [v], FlattenFrom(cmdData, vtxData, i + 1, Cursor(lastOn, subStart, hasSub), tol, fuel));
      } else if cmd == CMD_ON {
        dst.LineTo(v);
        lastOn := v;
        PrependPrepend(cmds0, vtx0, [CMD_ON], [v], FlattenFrom(cmdData, vtxData, i + 1, Cursor(lastOn, subStart, hasSub), tol, fuel));
      } else if cmd == CMD_QUAD {
        if i + 1 >= n || cmdData[i + 1] != CMD_ON {
          return InvalidState;
        }
        var complete := FlattenQuad(dst, lastOn, v, vtxData[i + 1], tol, fuel);
        ghost var p := QuadPieces(Quad(lastOn, v, vtxData[i + 1]), tol, fuel);
        if !complete {
          return Exhausted;
        }
        lastOn := vtxData[i + 1];
        PrependPrepend(cmds0, vtx0, Lines(|p.ends|), p.ends, FlattenFrom(cmdData, vtxData, i + 2, Cursor(lastOn, subStart, hasSub), tol, fuel));
        i := i + 1;
      } else if cmd == CMD_CUBIC {
        if i + 2 >= n || cmdData[i + 1] != CMD_CUBIC || cmdData[i + 2] != CMD_ON {
          return InvalidState;
        }
        var complete := FlattenCubic(dst, lastOn, v, vtxData[i + 1], vtxData[i + 2], tol, fuel);
        ghost var p := CubicPieces(Cubic(lastOn, v, vtxData[i + 1], vtxData[i + 2]), tol, fuel);
        if !complete {
          return Exhausted;
        }
        lastOn := vtxData[i + 2];
        PrependPrepend(cmds0, vtx0, Lines(|p.ends|), p.ends, FlattenFrom(cmdData, vtxData, i + 3, Cursor(lastOn, subStart, hasSub), tol, fuel));
        i := i + 2;
      } else if cmd == CMD_CLOSE {
        if hasSub {
          dst.Close();
          lastOn := subStart;
          PrependPrepend(cmds0, vtx0, [CMD_CLOSE], [CLOSE_VERTEX], FlattenFrom(cmdData, vtxData, i + 1, Cursor(lastOn, subStart, hasSub), tol, fuel));
        }
      }
      i := i + 1;
    }
    return Flattened;
  }

  // ---------------------------------------------------------------------
  // What the walk emits

  predicate IsPlainCmd(c: Byte)
  {
    c == CMD_MOVE || c == CMD_ON || c == CMD_CLOSE
  }

  /**
   * A path the walk copies unchanged: only `move_to`, `line_to` and `close`,
   * every `close` inside a figure (`hasSub` on entry, or after a `move_to`)
   * and carrying the close vertex.
   */
  predicate FlatPath(cmds: seq<Byte>, vtx: seq<Point>, hasSub: bool)
    decreases |cmds|
  {
    |cmds| == |vtx| &&
    (|cmds| == 0 ||
     (IsPlainCmd(cmds[0]) && (cmds[0] == CMD_CLOSE ==> hasSub && vtx[0] == CLOSE_VERTEX) &&
      FlatPath(cmds[1..], vtx[1..], hasSub || cmds[0] == CMD_MOVE)))
  }

  /** A flat path is reproduced by the walk, whatever the tolerance and fuel. */
  lemma {:induction false} FlatPathFixed(cmds: seq<Byte>, vtx: seq<Point>, i: nat, at: Cursor, tol: real, fuel: nat)
    requires |cmds| == |vtx| && i <= |cmds| && FlatPath(cmds[i..], vtx[i..], at.hasSub)
    ensures FlattenFrom(cmds, vtx, i, at, tol, fuel) == Walk(Flattened, cmds[i..], vtx[i..])
    decreases |cmds| - i
  {
    if i < |cmds| {
      assert cmds[i..][1..] == cmds[i + 1..] && vtx[i..][1..] == vtx[i + 1..];
      assert cmds[i..] == [cmds[i]] + cmds[i + 1..] && vtx[i..] == [vtx[i]] + vtx[i + 1..];
      if cmds[i] == CMD_MOVE {
        FlatPathFixed(cmds, vtx, i + 1, Cursor(vtx[i], vtx[i], true), tol, fuel);
      } else if cmds[i] == CMD_ON {
        FlatPathFixed(cmds, vtx, i + 1, at.(lastOn := vtx[i]), tol, fuel);
      } else {
        FlatPathFixed(cmds, vtx, i + 1, at.(lastOn := at.subStart), tol, fuel);
      }
    }
  }

  lemma FlatPathCons(c: Byte, v: Point, cmds: seq<Byte>, vtx: seq<Point>, hasSub: bool)
    requires IsPlainCmd(c) && (c == CMD_CLOSE ==> hasSub && v == CLOSE_VERTEX)
    requires FlatPath(cmds, vtx, hasSub || c == CMD_MOVE)
    ensures FlatPath([c] + cmds, [v] + vtx, hasSub)
  {
    assert ([c] + cmds)[1..] == cmds && ([v] + vtx)[1..] == vtx;
  }

  /** Line commands may precede a flat path without opening or closing a figure. */
  lemma {:induction false} FlatPathLines(n: nat, ends: seq<Point>, cmds: seq<Byte>, vtx: seq<Point>, hasSub: bool)
    requires |ends| == n && FlatPath(cmds, vtx, hasSub)
    ensures FlatPath(Lines(n) + cmds, ends + vtx, hasSub)
    decreases n
  {
    if n > 0 {
      var c, v := Lines(n - 1) + cmds, ends[1..] + vtx;
      FlatPathLines(n - 1, ends[1..], cmds, vtx, hasSub);
      assert Lines(n) == [CMD_ON] + Lines(n - 1);
      assert Lines(n) + cmds == [CMD_ON] + c;
      assert ends + vtx == [ends[0]] + v;
      FlatPathCons(CMD_ON, ends[0], c, v, hasSub);
    } else {
      assert Lines(n) + cmds == cmds && ends + vtx == vtx;
    }
  }

  /** A walk that succeeds emits a flat path: no curve commands, no `close` outside a figure. */
  lemma {:induction false} WalkOutputFlat(cmds: seq<Byte>, vtx: seq<Point>, i: nat, at: Cursor, tol: real, fuel: nat)
    requires |cmds| == |vtx| && i <= |cmds|
    requires FlattenFrom(cmds, vtx, i, at, tol, fuel).status == Flattened
    ensures FlatPath(FlattenFrom(cmds, vtx, i, at, tol, fuel).cmds, FlattenFrom(cmds, vtx, i, at, tol, fuel).vtx, at.hasSub)
    decreases |cmds| - i
  {
    if i < |cmds| {
      var v := vtx[i];
      if cmds[i] == CMD_MOVE {
        var rest := FlattenFrom(cmds, vtx, i + 1, Cursor(v, v, true), tol, fuel);
        WalkOutputFlat(cmds, vtx, i + 1, Cursor(v, v, true), tol, fuel);
        FlatPathCons(CMD_MOVE, v, rest.cmds, rest.vtx, at.hasSub);
      } else if cmds[i] == CMD_ON {
        var rest := FlattenFrom(cmds, vtx, i + 1, at.(lastOn := v), tol, fuel);
        WalkOutputFlat(cmds, vtx, i + 1, at.(lastOn := v), tol, fuel);
        FlatPathCons(CMD_ON, v, rest.cmds, rest.vtx, at.hasSub);
      } else if cmds[i] == CMD_QUAD {
        var p := QuadPieces(Quad(at.lastOn, v, vtx[i + 1]), tol, fuel);
        var rest := FlattenFrom(cmds, vtx, i + 2, at.(lastOn := vtx[i + 1]), tol, fuel);
        WalkOutputFlat(cmds, vtx, i + 2, at.(lastOn := vtx[i + 1]), tol, fuel);
        FlatPathLines(|p.ends|, p.ends, rest.cmds, rest.vtx, at.hasSub);
      } else if cmds[i] == CMD_CUBIC {
        var p := CubicPieces(Cubic(at.lastOn, v, vtx[i + 1], vtx[i + 2]), tol, fuel);
        var rest := FlattenFrom(cmds, vtx, i + 3, at.(lastOn := vtx[i + 2]), tol, fuel);
        WalkOutputFlat(cmds, vtx, i + 3, at.(lastOn := vtx[i + 2]), tol, fuel);
        FlatPathLines(|p.ends|, p.ends, rest.cmds, rest.vtx, at.hasSub);
      } else if cmds[i] == CMD_CLOSE && at.hasSub {
        var rest := FlattenFrom(cmds, vtx, i + 1, at.(lastOn := at.subStart), tol, fuel);
        WalkOutputFlat(cmds, vtx, i + 1, at.(lastOn := at.subStart), tol, fuel);
        FlatPathCons(CMD_CLOSE, CLOSE_VERTEX, rest.cmds, rest.vtx, at.hasSub);
      } else {
        WalkOutputFlat(cmds, vtx, i + 1, at, tol, fuel);
      }
    }
  }

  /** Flattening a flattened path changes nothing, whatever the second tolerance and fuel. */
  lemma FlattenIdempotent(cmds: seq<Byte>, vtx: seq<Point>, tol: real, fuel: nat, tol2: real, fuel2: nat)
    requires |cmds| == |vtx| && FlattenOf(cmds, vtx, tol, fuel).status == Flattened
    ensures |FlattenOf(cmds, vtx, tol, fuel).cmds| == |FlattenOf(cmds, vtx, tol, fuel).vtx|
    ensures FlattenOf(FlattenOf(cmds, vtx, tol, fuel).cmds, FlattenOf(cmds, vtx, tol, fuel).vtx, tol2, fuel2)
            == FlattenOf(cmds, vtx, tol, fuel)
  {
    var w := FlattenOf(cmds, vtx, tol, fuel);
    WalkOutputFlat(cmds, vtx, 0, START, tol, fuel);
    assert w.cmds[0..] == w.cmds && w.vtx[0..] == w.vtx;
    FlatPathFixed(w.cmds, w.vtx, 0, START, tol2, fuel2);
  }

  // ---------------------------------------------------------------------
  // How the walk ends

  predicate IsCurveCmd(c: Byte)
  {
    c == CMD_QUAD || c == CMD_CUBIC
  }

  /** The curve at `j` has the continuation commands the walk demands. */
  predicate WellFormedCurveAt(cmds: seq<Byte>, j: nat)
    requires j < |cmds|
  {
    (cmds[j] == CMD_QUAD && j + 1 < |cmds| && cmds[j + 1] == CMD_ON) ||
    (cmds[j] == CMD_CUBIC && j + 2 < |cmds| && cmds[j + 1] == CMD_CUBIC && cmds[j + 2] == CMD_ON)
  }

  /** No curve command in `cmds[i..j]`. */
  predicate NoCurveBetween(cmds: seq<Byte>, i: nat, j: nat)
    requires i <= j <= |cmds|
  {
    forall k :: i <= k < j ==> !IsCurveCmd(cmds[k])
  }

  /** The state after a command that is not a curve. */
  function Advance(c: Byte, v: Point, at: Cursor): Cursor
  {
    if c == CMD_MOVE then Cursor(v, v, true)
    else if c == CMD_ON then at.(lastOn := v)
    else if c == CMD_CLOSE && at.hasSub then at.(lastOn := at.subStart)
    else at
  }

  /** A curve command without its continuation, reached before any other curve, fails the walk. */
  lemma {:induction false} MalformedCurveFails(cmds: seq<Byte>, vtx: seq<Point>, i: nat, j: nat, at: Cursor, tol: real, fuel: nat)
    requires |cmds| == |vtx| && i <= j < |cmds| && NoCurveBetween(cmds, i, j)
    requires IsCurveCmd(cmds[j]) && !WellFormedCurveAt(cmds, j)
    ensures FlattenFrom(cmds, vtx, i, at, tol, fuel).status == InvalidState
    decreases j - i
  {
    if i < j {
      MalformedCurveFails(cmds, vtx, i + 1, j, Advance(cmds[i], vtx[i], at), tol, fuel);
    }
  }

  /**
   * With a negative tolerance no segment is ever flat enough, so the first
   * well-formed curve the walk reaches never finishes, whatever the fuel.
   */
  lemma {:induction false} NegativeToleranceHangs(cmds: seq<Byte>, vtx: seq<Point>, i: nat, j: nat, at: Cursor, tol: real, fuel: nat)
    requires |cmds| == |vtx| && i <= j < |cmds| && NoCurveBetween(cmds, i, j)
    requires WellFormedCurveAt(cmds, j) && tol < 0.0
    ensures FlattenFrom(cmds, vtx, i, at, tol, fuel).status == Exhausted
    decreases j - i
  {
    if i < j {
      NegativeToleranceHangs(cmds, vtx, i + 1, j, Advance(cmds[i], vtx[i], at), tol, fuel);
    } else if cmds[j] == CMD_QUAD {
      var q := Quad(at.lastOn, vtx[j], vtx[j + 1]);
      NegativeToleranceNeverCompletes(q, Cubic(q.p0, q.p1, q.p1, q.p2), tol, fuel);
    } else {
      var c := Cubic(at.lastOn, vtx[j], vtx[j + 1], vtx[j + 2]);
      NegativeToleranceNeverCompletes(Quad(c.p0, c.p1, c.p3), c, tol, fuel);
    }
  }

  /** More fuel changes nothing once a walk has ended without exhausting its fuel. */
  lemma {:induction false} WalkMoreFuel(cmds: seq<Byte>, vtx: seq<Point>, i: nat, at: Cursor, tol: real, fuel: nat, more: nat)
    requires |cmds| == |vtx| && i <= |cmds| && fuel <= more
    requires FlattenFrom(cmds, vtx, i, at, tol, fuel).status != Exhausted
    ensures FlattenFrom(cmds, vtx, i, at, tol, more) == FlattenFrom(cmds, vtx, i, at, tol, fuel)
    decreases |cmds| - i
  {
    if i < |cmds| {
      if WellFormedCurveAt(cmds, i) {
        if cmds[i] == CMD_QUAD {
          QuadPiecesMoreFuel(Quad(at.lastOn, vtx[i], vtx[i + 1]), tol, fuel, more);
          WalkMoreFuel(cmds, vtx, i + 2, at.(lastOn := vtx[i + 1]), tol, fuel, more);
        } else {
          CubicPiecesMoreFuel(Cubic(at.lastOn, vtx[i], vtx[i + 1], vtx[i + 2]), tol, fuel, more);
          WalkMoreFuel(cmds, vtx, i + 3, at.(lastOn := vtx[i + 2]), tol, fuel, more);
        }
      } else if !IsCurveCmd(cmds[i]) {
        WalkMoreFuel(cmds, vtx, i + 1, Advance(cmds[i], vtx[i], at), tol, fuel, more);
      }
    }
  }

  function NatMax(a: nat, b: nat): nat
  {
    if a < b then b else a
  }

  /** With a positive tolerance, a fuel under which no segment of the walk runs out. */
  function WalkFuel(cmds: seq<Byte>, vtx: seq<Point>, i: nat, at: Cursor, tol: real): nat
    requires |cmds| == |vtx| && i <= |cmds| && 0.0 < tol
    decreases |cmds| - i
  {
    if i == |cmds| then 0
    else if WellFormedCurveAt(cmds, i) then
      if cmds[i] == CMD_QUAD then
        NatMax(QuadFuel(Quad(at.lastOn, vtx[i], vtx[i + 1]), tol),
               WalkFuel(cmds, vtx, i + 2, at.(lastOn := vtx[i + 1]), tol))
      else
        NatMax(CubicFuel(Cubic(at.lastOn, vtx[i], vtx[i + 1], vtx[i + 2]), tol),
               WalkFuel(cmds, vtx, i + 3, at.(lastOn := vtx[i + 2]), tol))
    else if IsCurveCmd(cmds[i]) then 0
    else WalkFuel(cmds, vtx, i + 1, Advance(cmds[i], vtx[i], at), tol)
  }

  /** With a positive tolerance and that fuel, the walk ends: it flattens the path or rejects it. */
  lemma {:induction false} WalkCompletes(cmds: seq<Byte>, vtx: seq<Point>, i: nat, at: Cursor, tol: real, fuel: nat)
    requires |cmds| == |vtx| && i <= |cmds| && 0.0 < tol
    requires WalkFuel(cmds, vtx, i, at, tol) <= fuel
    ensures FlattenFrom(cmds, vtx, i, at, tol, fuel).status != Exhausted
    decreases |cmds| - i
  {
    if i < |cmds| {
      if WellFormedCurveAt(cmds, i) {
        if cmds[i] == CMD_QUAD {
          var q := Quad(at.lastOn, vtx[i], vtx[i + 1]);
          QuadPiecesMoreFuel(q, tol, QuadFuel(q, tol), fuel);
          WalkCompletes(cmds, vtx, i + 2, at.(lastOn := vtx[i + 1]), tol, fuel);
        } else {
          var c := Cubic(at.lastOn, vtx[i], vtx[i + 1], vtx[i + 2]);
          CubicPiecesMoreFuel(c, tol, CubicFuel(c, tol), fuel);
          WalkCompletes(cmds, vtx, i + 3, at.(lastOn := vtx[i + 2]), tol, fuel);
        }
      } else if !IsCurveCmd(cmds[i]) {
        WalkCompletes(cmds, vtx, i + 1, Advance(cmds[i], vtx[i], at), tol, fuel);
      }
    }
  }

  // ---------------------------------------------------------------------
  // The native function

  /** `{ok, Path}`, `{error, Reason}`, or no reply at all when the walk never returns. */
  datatype Reply = OkPath(path: Path) | Error(reason: string) | NoReply

  /**
   * `path_flatten(Path, Tolerance)` as written. `src` is the path resource
   * the first argument resolves to (`null` when it is not one), `allocOk`
   * whether the destination resource could be allocated. Any float is
   * accepted as the tolerance.
   */
  method PathFlattenNif(argc: int, src: Path?, tolTerm: Term, allocOk: bool, fuel: nat) returns (r: Reply)
    requires src != null ==> src.Valid()
    ensures argc != 2 ==> r == Error("bad_arity")
    ensures argc == 2 && src == null ==> r == Error("path_flatten_bad_src_path")
    ensures argc == 2 && src != null && !tolTerm.Float? ==> r == Error("path_flatten_invalid_tolerance")
    ensures argc == 2 && src != null && tolTerm.Float? && !allocOk ==> r == Error("dst_path_alloc_failed")
    ensures argc == 2 && src != null && tolTerm.Float? && allocOk ==>
              var w := FlattenOf(src.cmds, src.vtx, tolTerm.f, fuel);
              (w.status == InvalidState <==> r == Error("flatten_failed")) &&
              (w.status == Exhausted <==> r == NoReply) &&
              (w.status == Flattened <==> r.OkPath?) &&
              (r.OkPath? ==> fresh(r.path) && r.path.Valid() && r.path.cmds == w.cmds && r.path.vtx == w.vtx)
  {
    if argc != 2 {
      return Error("bad_arity");
    }
    if src == null {
      return Error("path_flatten_bad_src_path");
    }
    var tolerance := GetDouble(tolTerm);
    if tolerance.None? {
      return Error("path_flatten_invalid_tolerance");
    }
    if !allocOk {
      return Error("dst_path_alloc_failed");
    }
    var dst := new Path();
    var status := FlattenPath(src, dst, tolerance.value, fuel);
    if status == InvalidState {
      return Error("flatten_failed");
    }
    if status == Exhausted {
      return NoReply;
    }
    return OkPath(dst);
  }

  /**
   * `path_flatten` with the tolerance required to be positive: every call
   * replies, each curve being split as deep as `WalkFuel` says.
   */
  method PathFlattenNifChecked(argc: int, src: Path?, tolTerm: Term, allocOk: bool) returns (r: Reply)
    requires src != null ==> src.Valid()
    ensures r != NoReply
    ensures argc != 2 ==> r == Error("bad_arity")
    ensures argc == 2 && src == null ==> r == Error("path_flatten_bad_src_path")
    ensures argc == 2 && src != null && !(tolTerm.Float? && 0.0 < tolTerm.f) ==>
              r == Error("path_flatten_invalid_tolerance")
    ensures argc == 2 && src != null && tolTerm.Float? && 0.0 < tolTerm.f && !allocOk ==>
              r == Error("dst_path_alloc_failed")
    ensures argc == 2 && src != null && tolTerm.Float? && 0.0 < tolTerm.f && allocOk ==>
              var w := FlattenOf(src.cmds, src.vtx, tolTerm.f, WalkFuel(src.cmds, src.vtx, 0, START, tolTerm.f));
              (w.status == InvalidState <==> r == Error("flatten_failed")) &&
              (w.status == Flattened <==> r.OkPath?) &&
              (r.OkPath? ==> fresh(r.path) && r.path.Valid() && r.path.cmds == w.cmds && r.path.vtx == w.vtx)
  {
    if argc != 2 {
      return Error("bad_arity");
    }
    if src == null {
      return Error("path_flatten_bad_src_path");
    }
    var tolerance := GetDouble(tolTerm);
    if tolerance.None? || tolerance.value <= 0.0 {
      return Error("path_flatten_invalid_tolerance");
    }
    if !allocOk {
      return Error("dst_path_alloc_failed");
    }
    var tol := tolerance.value;
    var fuel := WalkFuel(src.cmds, src.vtx, 0, START, tol);
    WalkCompletes(src.cmds, src.vtx, 0, START, tol, fuel);
    var dst := new Path();
    var status := FlattenPath(src, dst, tol, fuel);
    if status == InvalidState {
      return Error("flatten_failed");
    }
    return OkPath(dst);
  }
}
