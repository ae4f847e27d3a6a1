/**
 * Value types shared by the overlap engine: UV points, UV edges, the
 * identity key of an edge and the bounding box of a UV shell.
 *
 * UV coordinates are modelled as `real`; every operation of the engine
 * that is modelled here only compares them, never computes with them.
 */
module UvTypes {

  datatype Option<T> = None | Some(value: T)

  /** A UV point: its coordinates, its UV index and the shell it belongs to. */
  datatype UvPoint = UvPoint(u: real, v: real, index: nat, shellIndex: nat)

  /**
   * The identity key of an edge: the smaller and the larger of the two UV
   * indices it joins (see EdgeKeys for the decimal key the command builds).
   */
  datatype EdgeId = EdgeId(lo: nat, hi: nat)

  /** A UV edge whose endpoints are stored in sweep order. */
  datatype UvEdge = UvEdge(begin: UvPoint, end: UvPoint, key: EdgeId)
  {
    /** The UV indices reported for this edge when it takes part in an overlap. */
    function Endpoints(): (r: set<int>)
      ensures begin.index in r && end.index in r && |r| <= 2
      ensures forall x :: x in r <==> x == begin.index || x == end.index
    {
      {begin.index, end.index}
    }
  }

  /** The axis-aligned bounding box of a UV shell. */
  datatype Box = Box(uMin: real, uMax: real, vMin: real, vMax: real)
  {
    predicate WellFormed() {
      uMin <= uMax && vMin <= vMax
    }

    predicate Contains(u: real, v: real) {
      uMin <= u <= uMax && vMin <= v <= vMax
    }
  }

  /**
   * A UV shell: the coordinates of its UV points in UV-index order, its
   * bounding box and the set of its edges. Its shell index is its position
   * in the sequence of shells (line 138 sets it so).
   */
  datatype Shell = Shell(us: seq<real>, vs: seq<real>, box: Box, edges: set<UvEdge>)
}
