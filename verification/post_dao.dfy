/**
 * The local Room table of posts (`PostDao` over `PostEntity`): a table keyed by
 * the auto-generated id, with the REPLACE insert, the update, the SQL like toggle
 * and the newest-first listing.
 */
module PostDao {

  /** One row of the `posts` table. */
  datatype PostEntity = PostEntity(
    id: int,
    imageUri: string,
    caption: string,
    hashtagsCsv: string,
    username: string,
    timestampEpochMillis: int,
    likeCount: int,
    liked: bool)

  /**
   * The table: its rows by primary key, and the AUTOINCREMENT counter (the
   * largest id the table has ever held), from which new ids are generated.
   */
  datatype PostTable = PostTable(rows: map<int, PostEntity>, sequence: int)

  /** Every row is stored under its own id, and no id exceeds the counter. */
  predicate WellFormed(t: PostTable) {
    && t.sequence >= 0
    && forall k :: k in t.rows ==> t.rows[k].id == k && k <= t.sequence
  }

  /** The empty table of a fresh database. */
  const Empty: PostTable := PostTable(map[], 0)

  lemma EmptyWellFormed()
    ensures WellFormed(Empty) && |Empty.rows| == 0
  {
  }

  /** The result of an insert: the new table and the row id Room returns. */
  datatype Inserted = Inserted(table: PostTable, rowId: int)

  /**
   * `insert(post)` with `OnConflictStrategy.REPLACE`. An id of 0 is "not set"
   * for an auto-generated key: the row gets the next AUTOINCREMENT id. Any other
   * id is used as given, and a row already holding it is replaced.
   */
  function Insert(t: PostTable, e: PostEntity): (r: Inserted)
    requires WellFormed(t)
    ensures WellFormed(r.table)
    ensures e.id != 0 ==> r.rowId == e.id
    ensures e.id == 0 ==> r.rowId !in t.rows && r.rowId > 0
    ensures r.table.rows == t.rows[r.rowId := e.(id := r.rowId)]
  {
    if e.id == 0 then
      var id := t.sequence + 1;
      Inserted(PostTable(t.rows[id := e.(id := id)], id), id)
    else
      Inserted(PostTable(t.rows[e.id := e], if e.id > t.sequence then e.id else t.sequence), e.id)
  }

  /** An insert with a fresh or generated id adds one row; one with an existing id keeps the row count. */
  lemma InsertCount(t: PostTable, e: PostEntity)
    requires WellFormed(t)
    ensures var r := Insert(t, e);
            && (e.id == 0 || e.id !in t.rows ==> |r.table.rows| == |t.rows| + 1)
            && (e.id != 0 && e.id in t.rows ==> |r.table.rows| == |t.rows|)
            && r.table.rows.Keys == t.rows.Keys + {r.rowId}
  {
  }

  /** Two inserts without an id get two different ids. */
  lemma GeneratedIdsDiffer(t: PostTable, a: PostEntity, b: PostEntity)
    requires WellFormed(t)
    requires a.id == 0 && b.id == 0
    ensures var first := Insert(t, a);
            Insert(first.table, b).rowId != first.rowId
  {
  }

  /** `update(post)`: rewrites the row with the entity's id; no such row, no change. */
  function Update(t: PostTable, e: PostEntity): (r: PostTable)
    requires WellFormed(t)
    ensures WellFormed(r)
    ensures r.rows.Keys == t.rows.Keys
    ensures e.id in t.rows ==> r.rows[e.id] == e
    ensures forall k :: k in t.rows && k != e.id ==> r.rows[k] == t.rows[k]
    ensures e.id !in t.rows ==> r == t
  {
    if e.id in t.rows then PostTable(t.rows[e.id := e], t.sequence) else t
  }

  /** On an existing row, `update` and the REPLACE `insert` agree. */
  lemma UpdateIsReplace(t: PostTable, e: PostEntity)
    requires WellFormed(t)
    requires e.id in t.rows && e.id != 0
    ensures Update(t, e) == Insert(t, e).table
  {
  }

  /**
   * The row after the toggle's SET clause: both expressions read the old row, so
   * `liked` is negated and `likeCount` moves by one, down when the row was liked.
   */
  function Toggled(e: PostEntity): (r: PostEntity)
    ensures r.liked == !e.liked
    ensures r.likeCount - e.likeCount == (if e.liked then -1 else 1)
    ensures r.(liked := e.liked, likeCount := e.likeCount) == e
  {
    e.(liked := !e.liked, likeCount := if e.liked then e.likeCount - 1 else e.likeCount + 1)
  }

  /** `toggleLike(postId)`: the SQL UPDATE on the row with that id, if any. */
  function ToggleLike(t: PostTable, id: int): (r: PostTable)
    requires WellFormed(t)
    ensures WellFormed(r)
    ensures r.rows.Keys == t.rows.Keys && r.sequence == t.sequence
    ensures id in t.rows ==> r.rows[id] == Toggled(t.rows[id])
    ensures forall k :: k in t.rows && k != id ==> r.rows[k] == t.rows[k]
    ensures id !in t.rows ==> r == t
  {
    if id in t.rows then PostTable(t.rows[id := Toggled(t.rows[id])], t.sequence) else t
  }

  /** Toggling the same row twice restores the table exactly. */
  lemma ToggleTwice(t: PostTable, id: int)
    requires WellFormed(t)
    ensures ToggleLike(ToggleLike(t, id), id) == t
  {
    if id in t.rows {
      assert Toggled(Toggled(t.rows[id])) == t.rows[id];
      assert ToggleLike(ToggleLike(t, id), id).rows == t.rows;
    }
  }

  /** Toggles of different rows commute. */
  lemma ToggleCommutes(t: PostTable, a: int, b: int)
    requires WellFormed(t)
    ensures ToggleLike(ToggleLike(t, a), b) == ToggleLike(ToggleLike(t, b), a)
  {
    if a != b {
      assert ToggleLike(ToggleLike(t, a), b).rows == ToggleLike(ToggleLike(t, b), a).rows;
    }
  }

  /** A liked row counts its own like. */
  predicate CountsOwnLike(e: PostEntity) {
    e.likeCount >= (if e.liked then 1 else 0)
  }

  predicate AllCountOwnLike(t: PostTable) {
    forall k :: k in t.rows ==> CountsOwnLike(t.rows[k])
  }

  /** The toggle keeps every row counting its own like. */
  lemma ToggleKeepsCounts(t: PostTable, id: int)
    requires WellFormed(t)
    requires AllCountOwnLike(t)
    ensures AllCountOwnLike(ToggleLike(t, id))
  {
  }

  /** True when the rows are newest first. */
  predicate NewestFirst(rows: seq<PostEntity>) {
    forall i, j :: 0 <= i < j < |rows| ==> rows[i].timestampEpochMillis >= rows[j].timestampEpochMillis
  }

  /** Where a row goes in a newest-first list: after every row at least as new. */
  function InsertionPoint(rows: seq<PostEntity>, e: PostEntity): (k: nat)
    requires NewestFirst(rows)
    ensures k <= |rows|
    ensures forall i :: 0 <= i < k ==> rows[i].timestampEpochMillis >= e.timestampEpochMillis
    ensures forall i :: k <= i < |rows| ==> rows[i].timestampEpochMillis < e.timestampEpochMillis
  {
    if |rows| == 0 || rows[|rows| - 1].timestampEpochMillis >= e.timestampEpochMillis then |rows|
    else InsertionPoint(rows[..|rows| - 1], e)
  }

  /** Inserting a row at its insertion point keeps the list newest first. */
  lemma InsertKeepsOrder(rows: seq<PostEntity>, e: PostEntity)
    requires NewestFirst(rows)
    ensures var k := InsertionPoint(rows, e);
            NewestFirst(rows[..k] + [e] + rows[k..])
  {
    var k := InsertionPoint(rows, e);
    var r := rows[..k] + [e] + rows[k..];
    forall i, j | 0 <= i < j < |r|
      ensures r[i].timestampEpochMillis >= r[j].timestampEpochMillis
    {
      if j < k {
        assert r[i] == rows[i] && r[j] == rows[j];
      } else if j == k {
        assert r[i] == rows[i] && r[j] == e;
      } else if i < k {
        assert r[i] == rows[i] && r[j] == rows[j - 1];
      } else if i == k {
        assert r[i] == e && r[j] == rows[j - 1];
      } else {
        assert r[i] == rows[i - 1] && r[j] == rows[j - 1];
      }
    }
  }

  /** True when `rows` lists exactly the rows of `t` whose ids are in `done`, each once. */
  predicate Lists(rows: seq<PostEntity>, t: PostTable, done: set<int>)
    requires done <= t.rows.Keys
  {
    && |rows| == |done|
    && (forall i :: 0 <= i < |rows| ==> rows[i].id in done && rows[i] == t.rows[rows[i].id])
    && (forall i, j :: 0 <= i < j < |rows| ==> rows[i].id != rows[j].id)
  }

  /**
   * `getAllPosts()`: `SELECT * FROM posts ORDER BY timestampEpochMillis DESC`.
   * Every row once, newest first. Rows with equal timestamps come in an order
   * the query leaves open.
   */
  method GetAllPosts(t: PostTable) returns (rows: seq<PostEntity>)
    requires WellFormed(t)
    ensures NewestFirst(rows)
    ensures |rows| == |t.rows|
    ensures forall i :: 0 <= i < |rows| ==> rows[i].id in t.rows && rows[i] == t.rows[rows[i].id]
    ensures forall i, j :: 0 <= i < j < |rows| ==> rows[i].id != rows[j].id
    ensures forall k :: k in t.rows ==> t.rows[k] in rows
  {
    rows := [];
    var rest := t.rows.Items;
    ghost var done: set<int> := {};
    while rest != {}
      invariant done <= t.rows.Keys
      invariant rest <= t.rows.Items
      invariant forall k :: k in t.rows ==> (k in done <==> (k, t.rows[k]) !in rest)
      invariant NewestFirst(rows)
      invariant Lists(rows, t, done)
      decreases |rest|
    {
      var item :| item in rest;
      var e := item.1;
      var k := InsertionPoint(rows, e);
      InsertKeepsOrder(rows, e);
      ListsInsert(rows, t, done, item.0, k);
      rows, rest, done := rows[..k] + [e] + rows[k..], rest - {item}, done + {item.0};
    }
    assert t.rows.Keys <= done by {
      forall k | k in t.rows
        ensures k in done
      {
        assert (k, t.rows[k]) !in rest;
      }
    }
    assert done == t.rows.Keys;
    ListsAll(rows, t);
  }

  /** A listing of all the ids lists every row of the table once. */
  lemma ListsAll(rows: seq<PostEntity>, t: PostTable)
    requires WellFormed(t)
    requires Lists(rows, t, t.rows.Keys)
    ensures |rows| == |t.rows|
    ensures forall k :: k in t.rows ==> t.rows[k] in rows
  {
    assert |t.rows.Keys| == |t.rows|;
    forall k | k in t.rows
      ensures t.rows[k] in rows
    {
      Covers(rows, t, k);
    }
  }

  /** Adding one more row anywhere in a listing gives a listing of one more id. */
  lemma ListsInsert(rows: seq<PostEntity>, t: PostTable, done: set<int>, id: int, k: nat)
    requires WellFormed(t)
    requires done <= t.rows.Keys && id in t.rows && id !in done
    requires Lists(rows, t, done)
    requires k <= |rows|
    ensures Lists(rows[..k] + [t.rows[id]] + rows[k..], t, done + {id})
  {
    var e := t.rows[id];
    var next := rows[..k] + [e] + rows[k..];
    forall i | 0 <= i < |next|
      ensures next[i].id in done + {id} && next[i] == t.rows[next[i].id]
    {
      if i < k {
        assert next[i] == rows[i];
      } else if i > k {
        assert next[i] == rows[i - 1];
      }
    }
    forall i, j | 0 <= i < j < |next|
      ensures next[i].id != next[j].id
    {
      if i < k {
        assert next[i] == rows[i];
        if j > k {
          assert next[j] == rows[j - 1];
        }
      } else if i > k {
        assert next[i] == rows[i - 1] && next[j] == rows[j - 1];
      } else {
        assert next[j] == rows[j - 1];
      }
    }
    assert |done + {id}| == |done| + 1;
  }

  /** A listing of every row, each once, contains each row: counting leaves no room to miss one. */
  lemma Covers(rows: seq<PostEntity>, t: PostTable, k: int)
    requires WellFormed(t)
    requires Lists(rows, t, t.rows.Keys)
    requires k in t.rows
    ensures t.rows[k] in rows
  {
    var ids := set i | 0 <= i < |rows| :: rows[i].id;
    assert ids <= t.rows.Keys;
    IdsCount(rows);
    if k !in ids {
      assert ids <= t.rows.Keys - {k};
      SubsetCard(ids, t.rows.Keys - {k});
      assert false;
    }
    var i :| 0 <= i < |rows| && rows[i].id == k;
    assert rows[i] == t.rows[k];
  }

  /** Distinct ids: the list has as many ids as rows. */
  lemma {:induction false} IdsCount(rows: seq<PostEntity>)
    requires forall i, j :: 0 <= i < j < |rows| ==> rows[i].id != rows[j].id
    ensures |set i | 0 <= i < |rows| :: rows[i].id| == |rows|
  {
    if |rows| > 0 {
      var init := rows[..|rows| - 1];
      IdsCount(init);
      var before := set i | 0 <= i < |init| :: init[i].id;
      var after := set i | 0 <= i < |rows| :: rows[i].id;
      assert after == before + {rows[|rows| - 1].id} by {
        forall x | x in after
          ensures x in before + {rows[|rows| - 1].id}
        {
          var i :| 0 <= i < |rows| && rows[i].id == x;
          if i < |rows| - 1 {
            assert init[i] == rows[i];
          }
        }
        forall x | x in before
          ensures x in after
        {
          var i :| 0 <= i < |init| && init[i].id == x;
          assert rows[i] == init[i];
        }
      }
      assert rows[|rows| - 1].id !in before by {
        forall i | 0 <= i < |init|
          ensures init[i].id != rows[|rows| - 1].id
        {
          assert init[i] == rows[i];
        }
      }
    }
  }

  lemma SubsetCard(a: set<int>, b: set<int>)
    requires a <= b
    ensures |a| <= |b|
  {
    assert b == a + (b - a);
  }
}
