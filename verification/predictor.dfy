/** The last-observation baseline predictor: for every query key it answers
    the most recent observed position of that entity, or `(0.0, 0.0)` when
    the entity was never observed. */
module Predictor {
  import opened Basics

  /** The compound entity key `(game_id, play_id, nfl_id)`. */
  datatype Key = Key(game: int, play: int, nfl: int)

  /** One row of the observation table. `frame` means something only when the
      table has a `frame_id` column, and `x`/`y` only when it has those columns. */
  datatype Observation = Observation(key: Key, frame: int, x: real, y: real)

  /** The observation table: its column names and its rows in input order. */
  datatype ObservationTable = ObservationTable(columns: set<string>, rows: seq<Observation>)

  const KeyColumns: set<string> := {"game_id", "play_id", "nfl_id"}

  predicate HasKeyColumns(t: ObservationTable) {
    KeyColumns <= t.columns
  }

  /** Recency is decided by `frame_id` when the table has it, else by input order. */
  predicate ByFrame(t: ObservationTable) {
    "frame_id" in t.columns
  }

  function ObservedKeys(rows: seq<Observation>): set<Key> {
    set i | 0 <= i < |rows| :: rows[i].key
  }

  /** Row `j` is at least as recent as row `i`: by frame and then by input
      order (a stable sort puts equal frames in input order), or by input
      order alone when there are no frames. This is a total order on indices. */
  predicate NoLaterThan(rows: seq<Observation>, byFrame: bool, i: int, j: int)
    requires 0 <= i < |rows| && 0 <= j < |rows|
  {
    if byFrame then rows[i].frame < rows[j].frame || (rows[i].frame == rows[j].frame && i <= j)
    else i <= j
  }

  /** Row `j` is the latest observation of entity `k`. */
  ghost predicate IsLatest(rows: seq<Observation>, byFrame: bool, k: Key, j: int) {
    && 0 <= j < |rows|
    && rows[j].key == k
    && forall i | 0 <= i < |rows| && rows[i].key == k :: NoLaterThan(rows, byFrame, i, j)
  }

  /** Sort-then-`groupby().last()` as a single left-to-right scan that keeps,
      per key, the best record seen so far; a record replaces the kept one
      unless its frame is strictly smaller. */
  function LatestByKey(rows: seq<Observation>, byFrame: bool): (latest: map<Key, Observation>)
  {
    if rows == [] then map[]
    else
      var seen := LatestByKey(rows[..|rows| - 1], byFrame);
      var r := rows[|rows| - 1];
      if byFrame && r.key in seen && r.frame < seen[r.key].frame then seen
      else seen[r.key := r]
  }

  /** The rows before the last one keep their observed keys, and the last row adds its own. */
  lemma ObservedKeysSnoc(rows: seq<Observation>)
    requires rows != []
    ensures ObservedKeys(rows) == ObservedKeys(rows[..|rows| - 1]) + {rows[|rows| - 1].key}
  {
  }

  /** The grouping holds exactly one entry per observed key. */
  lemma {:induction false} LatestByKeyKeys(rows: seq<Observation>, byFrame: bool)
    ensures LatestByKey(rows, byFrame).Keys == ObservedKeys(rows)
  {
    if rows != [] {
      LatestByKeyKeys(rows[..|rows| - 1], byFrame);
      ObservedKeysSnoc(rows);
    }
  }

  /** Every observed key has a latest record. */
  lemma {:induction false} LatestExists(rows: seq<Observation>, byFrame: bool, k: Key)
    requires k in ObservedKeys(rows)
    ensures exists j :: IsLatest(rows, byFrame, k, j)
  {
    var n := |rows| - 1;
    var front := rows[..n];
    ObservedKeysSnoc(rows);
    if k !in ObservedKeys(front) {
      assert forall i | 0 <= i < n :: front[i].key in ObservedKeys(front);
      assert IsLatest(rows, byFrame, k, n);
    } else {
      LatestExists(front, byFrame, k);
      var j0 :| IsLatest(front, byFrame, k, j0);
      if rows[n].key == k && !(byFrame && rows[n].frame < rows[j0].frame) {
        forall i | 0 <= i < |rows| && rows[i].key == k ensures NoLaterThan(rows, byFrame, i, n) {
          if i < n {
            assert NoLaterThan(front, byFrame, i, j0);
          }
        }
        assert IsLatest(rows, byFrame, k, n);
      } else {
        forall i | 0 <= i < |rows| && rows[i].key == k ensures NoLaterThan(rows, byFrame, i, j0) {
          if i < n {
            assert NoLaterThan(front, byFrame, i, j0);
          }
        }
        assert IsLatest(rows, byFrame, k, j0);
      }
    }
  }

  /** The entry the grouping keeps for a key is that key's latest record. */
  lemma {:induction false} LatestByKeySelectsLatest(rows: seq<Observation>, byFrame: bool)
    ensures forall k, j | IsLatest(rows, byFrame, k, j) ::
              k in LatestByKey(rows, byFrame) && LatestByKey(rows, byFrame)[k] == rows[j]
  {
    if rows != [] {
      var n := |rows| - 1;
      var front := rows[..n];
      var r := rows[n];
      LatestByKeySelectsLatest(front, byFrame);
      LatestByKeyKeys(front, byFrame);
      var seen := LatestByKey(front, byFrame);
      var m := LatestByKey(rows, byFrame);
      forall k, j | IsLatest(rows, byFrame, k, j) ensures k in m && m[k] == rows[j] {
        if j == n {
          if k in seen {
            LatestExists(front, byFrame, k);
            var j0 :| IsLatest(front, byFrame, k, j0);
            assert NoLaterThan(rows, byFrame, j0, n);
          }
        } else {
          forall i | 0 <= i < n && front[i].key == k ensures NoLaterThan(front, byFrame, i, j) {
            assert NoLaterThan(rows, byFrame, i, j);
          }
          assert IsLatest(front, byFrame, k, j);
          if k == r.key {
            assert NoLaterThan(rows, byFrame, n, j);
          }
        }
      }
    }
  }

  /** The latest record of a key is unique: recency is a total order on rows. */
  lemma LatestIsUnique(rows: seq<Observation>, byFrame: bool, k: Key, j1: int, j2: int)
    requires IsLatest(rows, byFrame, k, j1) && IsLatest(rows, byFrame, k, j2)
    ensures j1 == j2
  {
  }

  /** The coordinates stored for a record; a coordinate column the table lacks reads as 0.0. */
  function Coordinates(o: Observation, columns: set<string>): Point {
    Point(if "x" in columns then o.x else 0.0, if "y" in columns then o.y else 0.0)
  }

  /** The lookup dictionary: one entry per distinct observed key, holding the
      coordinates of that key's latest record. */
  function Lookup(t: ObservationTable): (lookup: map<Key, Point>)
    ensures lookup.Keys == ObservedKeys(t.rows)
    ensures forall k | k in lookup ::
              exists j :: IsLatest(t.rows, ByFrame(t), k, j) && lookup[k] == Coordinates(t.rows[j], t.columns)
  {
    var latest := LatestByKey(t.rows, ByFrame(t));
    LatestByKeyKeys(t.rows, ByFrame(t));
    LatestByKeySelectsLatest(t.rows, ByFrame(t));
    assert forall k | k in latest :: exists j :: IsLatest(t.rows, ByFrame(t), k, j) by {
      forall k | k in latest ensures exists j :: IsLatest(t.rows, ByFrame(t), k, j) {
        LatestExists(t.rows, ByFrame(t), k);
      }
    }
    map k | k in latest :: Coordinates(latest[k], t.columns)
  }

  /** One prediction per query, in query order: the latest observed
      coordinates of the queried entity, or the origin when the entity was
      never observed or the table lacks a key column. */
  function Predict(queries: seq<Key>, t: ObservationTable): (preds: seq<Point>)
    ensures |preds| == |queries|
    ensures !HasKeyColumns(t) ==> forall i | 0 <= i < |preds| :: preds[i] == Origin
    ensures HasKeyColumns(t) ==>
              forall i | 0 <= i < |queries| && queries[i] !in ObservedKeys(t.rows) :: preds[i] == Origin
    ensures HasKeyColumns(t) ==>
              forall i | 0 <= i < |queries| && queries[i] in ObservedKeys(t.rows) ::
                exists j :: IsLatest(t.rows, ByFrame(t), queries[i], j) && preds[i] == Coordinates(t.rows[j], t.columns)
    ensures "x" !in t.columns ==> forall i | 0 <= i < |preds| :: preds[i].x == 0.0
    ensures "y" !in t.columns ==> forall i | 0 <= i < |preds| :: preds[i].y == 0.0
  {
    if !HasKeyColumns(t) then
      seq(|queries|, _ => Origin)
    else
      var lookup := Lookup(t);
      seq(|queries|, i requires 0 <= i < |queries| =>
        if queries[i] in lookup then lookup[queries[i]] else Origin)
  }

  /** Each query is answered on its own: the answer to query `i` is the
      answer that query would get if it were asked alone. */
  lemma EachQueryAnsweredAlone(queries: seq<Key>, t: ObservationTable, i: int)
    requires 0 <= i < |queries|
    ensures Predict(queries, t)[i] == Predict([queries[i]], t)[0]
  {
  }

  /** Every two rows of the same entity have different frames. */
  ghost predicate DistinctFrames(rows: seq<Observation>) {
    forall i, j | 0 <= i < |rows| && 0 <= j < |rows| && i != j && rows[i].key == rows[j].key ::
      rows[i].frame != rows[j].frame
  }

  /** Rearranging the rows keeps the set of observed keys. */
  lemma PermutedKeys(rows1: seq<Observation>, rows2: seq<Observation>)
    requires multiset(rows1) == multiset(rows2)
    ensures ObservedKeys(rows1) == ObservedKeys(rows2)
  {
    forall k | k in ObservedKeys(rows1) ensures k in ObservedKeys(rows2) {
      var i :| 0 <= i < |rows1| && rows1[i].key == k;
      assert rows1[i] in multiset(rows2);
      var i2 :| 0 <= i2 < |rows2| && rows2[i2] == rows1[i];
    }
    forall k | k in ObservedKeys(rows2) ensures k in ObservedKeys(rows1) {
      var i :| 0 <= i < |rows2| && rows2[i].key == k;
      assert rows2[i] in multiset(rows1);
      var i1 :| 0 <= i1 < |rows1| && rows1[i1] == rows2[i];
    }
  }

  /** Under distinct frames, the latest records of an entity in two
      rearrangements of the same rows are the same record. */
  lemma PermutedLatest(rows1: seq<Observation>, rows2: seq<Observation>, k: Key, j1: int, j2: int)
    requires multiset(rows1) == multiset(rows2)
    requires DistinctFrames(rows1)
    requires IsLatest(rows1, true, k, j1) && IsLatest(rows2, true, k, j2)
    ensures rows1[j1] == rows2[j2]
  {
    assert rows1[j1] in multiset(rows2);
    var i2 :| 0 <= i2 < |rows2| && rows2[i2] == rows1[j1];
    assert NoLaterThan(rows2, true, i2, j2);
    assert rows2[j2] in multiset(rows1);
    var i1 :| 0 <= i1 < |rows1| && rows1[i1] == rows2[j2];
    assert NoLaterThan(rows1, true, i1, j1);
    assert rows1[i1].frame == rows1[j1].frame;
  }

  /** With frames and no two records of an entity sharing a frame, the
      grouping does not depend on the order in which the records arrive. */
  lemma ArrivalOrderIrrelevant(rows1: seq<Observation>, rows2: seq<Observation>)
    requires multiset(rows1) == multiset(rows2)
    requires DistinctFrames(rows1)
    ensures LatestByKey(rows1, true) == LatestByKey(rows2, true)
  {
    LatestByKeyKeys(rows1, true);
    LatestByKeyKeys(rows2, true);
    LatestByKeySelectsLatest(rows1, true);
    LatestByKeySelectsLatest(rows2, true);
    PermutedKeys(rows1, rows2);
    var m1 := LatestByKey(rows1, true);
    var m2 := LatestByKey(rows2, true);
    forall k | k in m1 ensures m1[k] == m2[k] {
      LatestExists(rows1, true, k);
      LatestExists(rows2, true, k);
      var j1 :| IsLatest(rows1, true, k, j1);
      var j2 :| IsLatest(rows2, true, k, j2);
      PermutedLatest(rows1, rows2, k, j1, j2);
    }
  }

  /** Two frames of one player: the later frame's position is predicted. */
  lemma LaterFrameWins()
    ensures var k := Key(1, 1, 1);
            var t := ObservationTable({"game_id", "play_id", "nfl_id", "frame_id", "x", "y"},
                                      [Observation(k, 1, 1.0, 1.0), Observation(k, 2, 5.0, 9.0)]);
            Predict([k], t) == [Point(5.0, 9.0)]
  {
  }

  /** Without frames, the last record in input order is predicted. */
  lemma LastRowWinsWithoutFrames()
    ensures var k := Key(1, 1, 1);
            var t := ObservationTable({"game_id", "play_id", "nfl_id", "x", "y"},
                                      [Observation(k, 7, 1.0, 1.0), Observation(k, 3, 2.0, 2.0)]);
            Predict([k], t) == [Point(2.0, 2.0)]
  {
  }

  /** A never-observed player is predicted at the origin. */
  lemma UnseenPlayerAtOrigin()
    ensures var t := ObservationTable({"game_id", "play_id", "nfl_id", "frame_id", "x", "y"},
                                      [Observation(Key(1, 1, 1), 1, 1.0, 1.0)]);
            Predict([Key(1, 1, 2)], t) == [Origin]
  {
  }
}
