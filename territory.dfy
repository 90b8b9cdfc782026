/**
 * The board of src/Game.ts seen as a value: which player id, if any, owns
 * each cell. This is the reference the object model in module Game is
 * proved against. A capture towards d claims, all at once, every neutral
 * cell one step in d from a cell the player owned before the capture.
 */
module Territory {
  import opened Optional
  import opened Geometry
  import opened Hex
  import Seqs

  /** The owner id of every cell on the board; `None` marks a neutral cell. */
  type Ownership = map<Vec2, Option<int>>

  predicate Owns(m: Ownership, c: Vec2, id: int)
  {
    c in m && m[c] == Some(id)
  }

  predicate Neutral(m: Ownership, c: Vec2)
  {
    c in m && m[c] == None
  }

  /** The cell one step from c in direction d. */
  function Step(c: Vec2, d: Direction): Vec2
  {
    Add(c, DirectionMap(d))
  }

  /** The cells of id's territory whose neighbour towards d is a neutral cell of the board. */
  function Sources(m: Ownership, id: int, d: Direction): set<Vec2>
  {
    set c | c in m && Owns(m, c, id) && Neutral(m, Step(c, d))
  }

  /** The cells a capture by id towards d claims, chosen from the board as it stands before. */
  function Targets(m: Ownership, id: int, d: Direction): set<Vec2>
  {
    set c | c in Sources(m, id, d) :: Step(c, d)
  }

  /** The board after id captures towards d. */
  function Capture(m: Ownership, id: int, d: Direction): Ownership
  {
    map c | c in m :: if c in Targets(m, id, d) then Some(id) else m[c]
  }

  /** The player has a capture available in some direction. */
  predicate CanCapture(m: Ownership, id: int)
  {
    exists d :: Targets(m, id, d) != {}
  }

  /** A target is a neutral cell whose neighbour against d belongs to id before the capture. */
  lemma TargetsAre(m: Ownership, id: int, d: Direction, c: Vec2)
    ensures c in Targets(m, id, d) <==> Neutral(m, c) && Owns(m, Add(c, Neg(DirectionMap(d))), id)
  {
    var off := DirectionMap(d);
    var s := Add(c, Neg(off));
    assert Step(s, d) == c;
    if c in Targets(m, id, d) {
      var s' :| s' in Sources(m, id, d) && c == Step(s', d);
      assert s' == s;
    }
    if Neutral(m, c) && Owns(m, s, id) {
      assert s in Sources(m, id, d);
    }
  }

  /** A cell of id's next to a neutral cell of the board gives id a capture. */
  lemma NeighbourCapturable(m: Ownership, id: int, c: Vec2, d: Direction)
    requires Owns(m, c, id) && Neutral(m, Step(c, d))
    ensures Step(c, d) in Targets(m, id, d) && CanCapture(m, id)
  {
    assert c in Sources(m, id, d);
  }

  /**
   * What a capture does: the board keeps its cells; id now owns exactly its
   * old cells plus the targets; a cell that had an owner keeps it; every
   * other cell is untouched.
   */
  lemma CaptureEffect(m: Ownership, id: int, d: Direction)
    ensures Capture(m, id, d).Keys == m.Keys
    ensures forall c :: Owns(Capture(m, id, d), c, id) <==> Owns(m, c, id) || c in Targets(m, id, d)
    ensures forall c :: c in m && m[c] != None ==> Capture(m, id, d)[c] == m[c]
    ensures forall c :: c in m && c !in Targets(m, id, d) ==> Capture(m, id, d)[c] == m[c]
  {
    forall c | c in Targets(m, id, d)
      ensures Neutral(m, c)
    {
      TargetsAre(m, id, d, c);
    }
  }

  /**
   * No chain capture: every cell newly owned after the capture is next to a
   * cell id owned before it, not merely to one captured in the same step.
   */
  lemma CaptureNoChain(m: Ownership, id: int, d: Direction, c: Vec2)
    requires Owns(Capture(m, id, d), c, id) && !Owns(m, c, id)
    ensures Owns(m, Add(c, Neg(DirectionMap(d))), id)
    ensures Neutral(m, c)
  {
    CaptureEffect(m, id, d);
    TargetsAre(m, id, d, c);
  }

  /** A capture never takes a cell away from id: its territory only grows. */
  lemma CaptureNeverShrinks(m: Ownership, id: int, d: Direction, c: Vec2)
    requires Owns(m, c, id)
    ensures Owns(Capture(m, id, d), c, id)
  {
    CaptureEffect(m, id, d);
  }

  /** The cells newly owned by id after the capture. */
  function NewlyOwned(before: Ownership, after: Ownership, id: int): set<Vec2>
  {
    set c | c in after && Owns(after, c, id) && !Owns(before, c, id)
  }

  /** Shifting every cell of a set by one step keeps its size. */
  lemma {:induction false} StepCard(s: set<Vec2>, d: Direction)
    ensures |set c | c in s :: Step(c, d)| == |s|
    decreases |s|
  {
    if s != {} {
      var x :| x in s;
      var rest := s - {x};
      StepCard(rest, d);
      var img := set c | c in s :: Step(c, d);
      var imgRest := set c | c in rest :: Step(c, d);
      assert img == imgRest + {Step(x, d)};
      forall c | c in rest
        ensures Step(c, d) != Step(x, d)
      {
        AddNegCancels(x, DirectionMap(d));
      }
      assert Step(x, d) !in imgRest;
    }
  }

  /**
   * The number of cells a capture claims is the number of its targets, one
   * per source cell: distinct sources have distinct targets.
   */
  lemma CaptureCount(m: Ownership, id: int, d: Direction)
    ensures NewlyOwned(m, Capture(m, id, d), id) == Targets(m, id, d)
    ensures |NewlyOwned(m, Capture(m, id, d), id)| == |Sources(m, id, d)|
  {
    CaptureEffect(m, id, d);
    forall c | c in Targets(m, id, d)
      ensures !Owns(m, c, id)
    {
      TargetsAre(m, id, d, c);
    }
    StepCard(Sources(m, id, d), d);
  }

  /* The list pipeline of `getNeutralBorderingTiles` replayed on cells. */

  /** The cells of cs that id owns, in order. */
  function OwnedCells(cs: seq<Vec2>, m: Ownership, id: int): (r: seq<Vec2>)
    ensures forall c :: c in r <==> c in cs && Owns(m, c, id)
    ensures Seqs.Distinct(cs) ==> Seqs.Distinct(r)
  {
    if cs == [] then []
    else
      var rest := OwnedCells(cs[1..], m, id);
      assert Seqs.Distinct(cs) ==> cs[0] !in cs[1..] && Seqs.Distinct(cs[1..]);
      if Owns(m, cs[0], id) then [cs[0]] + rest else rest
  }

  /** Each cell of cs moved one step towards d. */
  function Shifted(cs: seq<Vec2>, d: Direction): (r: seq<Vec2>)
    ensures |r| == |cs|
    ensures forall i :: 0 <= i < |cs| ==> r[i] == Step(cs[i], d)
  {
    if cs == [] then [] else [Step(cs[0], d)] + Shifted(cs[1..], d)
  }

  /** The cells of cs that are neutral cells of the board, in order. */
  function NeutralCells(cs: seq<Vec2>, m: Ownership): (r: seq<Vec2>)
    ensures forall c :: c in r <==> c in cs && Neutral(m, c)
    ensures Seqs.Distinct(cs) ==> Seqs.Distinct(r)
  {
    if cs == [] then []
    else
      var rest := NeutralCells(cs[1..], m);
      assert Seqs.Distinct(cs) ==> cs[0] !in cs[1..] && Seqs.Distinct(cs[1..]);
      if Neutral(m, cs[0]) then [cs[0]] + rest else rest
  }

  /** Owned cells, stepped towards d, kept when neutral: the targets as a list. */
  function TargetList(cs: seq<Vec2>, m: Ownership, id: int, d: Direction): seq<Vec2>
  {
    NeutralCells(Shifted(OwnedCells(cs, m, id), d), m)
  }

  /**
   * Run over every cell of the board once, the list pipeline yields each
   * target exactly once.
   */
  lemma TargetListIsTargets(cs: seq<Vec2>, m: Ownership, id: int, d: Direction)
    requires forall c :: c in cs <==> c in m
    requires Seqs.Distinct(cs)
    ensures forall c :: c in TargetList(cs, m, id, d) <==> c in Targets(m, id, d)
    ensures Seqs.Distinct(TargetList(cs, m, id, d))
    ensures |TargetList(cs, m, id, d)| == |Targets(m, id, d)|
  {
    var owned := OwnedCells(cs, m, id);
    var shifted := Shifted(owned, d);
    forall i, j | 0 <= i < j < |shifted|
      ensures shifted[i] != shifted[j]
    {
      AddNegCancels(owned[j], DirectionMap(d));
    }
    forall c
      ensures c in TargetList(cs, m, id, d) <==> c in Targets(m, id, d)
    {
      if c in Targets(m, id, d) {
        var s :| s in Sources(m, id, d) && c == Step(s, d);
        var i :| 0 <= i < |owned| && owned[i] == s;
        assert shifted[i] == c;
      }
    }
    var tl := TargetList(cs, m, id, d);
    Seqs.DistinctCard(tl);
    assert Seqs.Elems(tl) == Targets(m, id, d);
  }
}
