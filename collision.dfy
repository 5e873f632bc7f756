/**
 * bang.c's collision grouping: two adjacent lines belong to the same
 * collision when their collision-level prefixes agree, and a run of such
 * lines is one collision.
 */
module Collision {
  import opened Layout
  import opened CLib

  /** The collision-level prefix of a line, read as the C string it is stored as. */
  function CollisionKey(rec: Line): seq<char> {
    Take(CStr(rec), LENGTH_COLL as nat)
  }

  /** sameCol: strncmp of the first LENGTH_COLL characters reports equality. */
  predicate SameCol(rec1: Line, rec2: Line) {
    StrNEqual(rec1, rec2, LENGTH_COLL as nat)
  }

  /** sameCol holds exactly when the two lines have the same collision-level prefix. */
  lemma SameColIffSameKey(rec1: Line, rec2: Line)
    ensures SameCol(rec1, rec2) <==> CollisionKey(rec1) == CollisionKey(rec2)
  {
    StrNEqualIffPrefixesAgree(rec1, rec2, LENGTH_COLL as nat);
  }

  /** On fixed-width lines without NUL characters, sameCol compares the first 32 characters. */
  lemma SameColOnRecords(rec1: Line, rec2: Line)
    requires |rec1| == SIZE_RECORD && |rec2| == SIZE_RECORD
    requires NUL !in rec1 && NUL !in rec2
    ensures SameCol(rec1, rec2) <==> rec1[..LENGTH_COLL] == rec2[..LENGTH_COLL]
  {
    SameColIffSameKey(rec1, rec2);
    NoNulIsWholeString(rec1);
    NoNulIsWholeString(rec2);
  }

  /** Every line is in the same collision as itself. */
  lemma SameColReflexive(rec: Line)
    ensures SameCol(rec, rec)
  {
    SameColIffSameKey(rec, rec);
  }

  lemma SameColSymmetric(rec1: Line, rec2: Line)
    ensures SameCol(rec1, rec2) <==> SameCol(rec2, rec1)
  {
    SameColIffSameKey(rec1, rec2);
    SameColIffSameKey(rec2, rec1);
  }

  lemma SameColTransitive(rec1: Line, rec2: Line, rec3: Line)
    requires SameCol(rec1, rec2) && SameCol(rec2, rec3)
    ensures SameCol(rec1, rec3)
  {
    SameColIffSameKey(rec1, rec2);
    SameColIffSameKey(rec2, rec3);
    SameColIffSameKey(rec1, rec3);
  }

  // --------------------------------------------------------- counting groups

  /** Does line i start a new collision: it is the first line, or sameCol fails against the line before? */
  predicate StartsCollision(lines: seq<Line>, i: int)
    requires 0 <= i < |lines|
  {
    i == 0 || !SameCol(lines[i - 1], lines[i])
  }

  /** Number of adjacent pairs of lines on which sameCol fails. */
  function Breaks(lines: seq<Line>): nat {
    if |lines| < 2 then 0
    else Breaks(lines[..|lines| - 1]) + (if SameCol(lines[|lines| - 2], lines[|lines| - 1]) then 0 else 1)
  }

  /** The collision count partDataset arrives at: 0 for no lines, else one more than the breaks. */
  function Collisions(lines: seq<Line>): nat {
    if lines == [] then 0 else 1 + Breaks(lines)
  }

  /** The positions at which a collision starts. */
  function CollisionStarts(lines: seq<Line>): set<int> {
    set i | 0 <= i < |lines| && StartsCollision(lines, i)
  }

  /** Reading one more line adds a collision exactly when that line starts one. */
  lemma CollisionsSnoc(lines: seq<Line>, line: Line)
    ensures Collisions(lines + [line]) == Collisions(lines) + (if StartsCollision(lines + [line], |lines|) then 1 else 0)
  {
    var s := lines + [line];
    assert s[..|s| - 1] == lines;
  }

  /** The collision count is the number of lines that start a collision. */
  lemma {:induction false} CollisionsCountStarts(lines: seq<Line>)
    ensures Collisions(lines) == |CollisionStarts(lines)|
    decreases |lines|
  {
    if lines != [] {
      var init := lines[..|lines| - 1];
      var last := lines[|lines| - 1];
      assert init + [last] == lines;
      CollisionsCountStarts(init);
      CollisionsSnoc(init, last);
      var before := CollisionStarts(init);
      var after := CollisionStarts(lines);
      assert forall i :: 0 <= i < |init| ==> (StartsCollision(init, i) <==> StartsCollision(lines, i));
      if StartsCollision(lines, |init|) {
        assert after == before + {|init|};
        assert |init| !in before;
      } else {
        assert after == before;
      }
    }
  }

  /** A collision holds at least one line: there are never more collisions than lines, and some for any line. */
  lemma {:induction false} CollisionsBounds(lines: seq<Line>)
    ensures Collisions(lines) <= |lines|
    ensures lines != [] ==> Collisions(lines) >= 1
    decreases |lines|
  {
    if |lines| >= 2 {
      var init := lines[..|lines| - 1];
      CollisionsSnoc(init, lines[|lines| - 1]);
      assert init + [lines[|lines| - 1]] == lines;
      CollisionsBounds(init);
    }
  }

  /**
   * Cutting a run of lines between two collisions splits the collision count:
   * each part counts its own collisions and none is counted twice.
   */
  lemma {:induction false} CollisionsSplitAtBoundary(front: seq<Line>, back: seq<Line>)
    requires front != [] && back != [] ==> !SameCol(front[|front| - 1], back[0])
    ensures Collisions(front + back) == Collisions(front) + Collisions(back)
    decreases |back|
  {
    if back == [] {
      assert front + back == front;
    } else if |back| == 1 {
      CollisionsSnoc(front, back[0]);
      assert front + back == front + [back[0]];
    } else {
      var init := back[..|back| - 1];
      var last := back[|back| - 1];
      assert init + [last] == back;
      assert front + back == (front + init) + [last];
      CollisionsSplitAtBoundary(front, init);
      CollisionsSnoc(front + init, last);
      CollisionsSnoc(init, last);
      assert (front + back)[|front + init| - 1] == init[|init| - 1];
    }
  }

  /** Cutting inside a collision counts the collision that straddles the cut twice. */
  lemma {:induction false} CollisionsSplitInsideCollision(front: seq<Line>, back: seq<Line>)
    requires front != [] && back != [] && SameCol(front[|front| - 1], back[0])
    ensures Collisions(front + back) + 1 == Collisions(front) + Collisions(back)
    decreases |back|
  {
    if |back| == 1 {
      CollisionsSnoc(front, back[0]);
      assert front + back == front + [back[0]];
    } else {
      var init := back[..|back| - 1];
      var last := back[|back| - 1];
      assert init + [last] == back;
      assert front + back == (front + init) + [last];
      CollisionsSplitInsideCollision(front, init);
      CollisionsSnoc(front + init, last);
      CollisionsSnoc(init, last);
      // last follows the same line in the whole run as in back, so it starts a collision in both or in neither.
      assert ((front + init) + [last])[|front + init| - 1] == (init + [last])[|init| - 1];
      assert StartsCollision((front + init) + [last], |front + init|) == StartsCollision(init + [last], |init|);
    }
  }
}
