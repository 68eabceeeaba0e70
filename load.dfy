/**
  `load_data`: the two tables as read from their CSV files, and the inner
  join `messages.merge(categories, how='inner', on='id')` of
  data/process_data.py. Reading the files is not modelled: the tables are
  given as sequences of rows.
*/
module Load {
  import opened Wrappers

  /** A row of the messages file; `original` is modelled as possibly missing (`None` for NaN). */
  datatype Message = Message(id: int, message: string, original: Option<string>, genre: string)

  /** A row of the categories file: the key and the packed `name-value;...` string. */
  datatype Categories = Categories(id: int, categories: string)

  /** A row of the merged table: the message columns, then the category file's columns without the key. */
  datatype Joined = Joined(id: int, message: string, original: Option<string>, genre: string, categories: string)

  /** The merged row of a message and a category row; the key is shared, so it is taken once. */
  function Merge(m: Message, c: Categories): Joined {
    Joined(m.id, m.message, m.original, m.genre, c.categories)
  }

  /** The merged rows of `m` with every category row of the same id, in the category table's order. */
  function MatchesOf(m: Message, cs: seq<Categories>): seq<Joined>
    decreases |cs|
  {
    if |cs| == 0 then []
    else
      var n := |cs| - 1;
      MatchesOf(m, cs[..n]) + (if cs[n].id == m.id then [Merge(m, cs[n])] else [])
  }

  /**
    The inner join on `id`: for each message row in order, its merged rows
    with the matching category rows, in the category table's order.
  */
  function InnerJoin(ms: seq<Message>, cs: seq<Categories>): seq<Joined>
    decreases |ms|
  {
    if |ms| == 0 then []
    else
      var n := |ms| - 1;
      InnerJoin(ms[..n], cs) + MatchesOf(ms[n], cs)
  }

  /** The positions of the category rows that match `m` and merge into `row`. */
  ghost function MatchPositions(m: Message, cs: seq<Categories>, row: Joined): set<nat> {
    set j: nat | j < |cs| && cs[j].id == m.id && Merge(m, cs[j]) == row
  }

  /** The (message position, category position) pairs with equal ids that merge into `row`. */
  ghost function JoinPairs(ms: seq<Message>, cs: seq<Categories>, row: Joined): set<(nat, nat)> {
    set i: nat, j: nat | i < |ms| && j < |cs| && ms[i].id == cs[j].id && Merge(ms[i], cs[j]) == row :: (i, j)
  }

  /** The pairs `(i, j)` for `j` in `s`. */
  ghost function Tagged(i: nat, s: set<nat>): set<(nat, nat)> {
    set j | j in s :: (i, j)
  }

  /** Pairing a fixed first component with a set keeps its size. */
  lemma {:induction false} TaggedCard(i: nat, s: set<nat>)
    ensures |Tagged(i, s)| == |s|
    decreases s
  {
    if s == {} {
      assert Tagged(i, s) == {};
    } else {
      var x :| x in s;
      TaggedCard(i, s - {x});
      assert Tagged(i, s) == Tagged(i, s - {x}) + {(i, x)};
      assert (i, x) !in Tagged(i, s - {x});
    }
  }

  /** Each row occurs among the matches of `m` once per matching category row that merges into it. */
  lemma {:induction false} MatchesOfMultiplicity(m: Message, cs: seq<Categories>, row: Joined)
    ensures multiset(MatchesOf(m, cs))[row] == |MatchPositions(m, cs, row)|
    decreases |cs|
  {
    if |cs| == 0 {
      assert MatchPositions(m, cs, row) == {};
    } else {
      var n := |cs| - 1;
      var init := cs[..n];
      MatchesOfMultiplicity(m, init, row);
      var tail: seq<Joined> := if cs[n].id == m.id then [Merge(m, cs[n])] else [];
      assert multiset(MatchesOf(m, cs)) == multiset(MatchesOf(m, init)) + multiset(tail);
      var here: set<nat> := if cs[n].id == m.id && Merge(m, cs[n]) == row then {n} else {};
      assert multiset(tail)[row] == |here|;
      var older := MatchPositions(m, init, row);
      forall j: nat | j < |cs|
        ensures j in MatchPositions(m, cs, row) <==> j in older || j in here
      {
        if j < n {
          assert init[j] == cs[j];
        }
      }
      assert MatchPositions(m, cs, row) == older + here;
      assert n !in older;
      assert older * here == {};
    }
  }

  /** The pairs of a join split into those of all but the last message row, and those of the last one. */
  lemma JoinPairsSplit(ms: seq<Message>, cs: seq<Categories>, row: Joined)
    requires |ms| > 0
    ensures JoinPairs(ms, cs, row)
      == JoinPairs(ms[..|ms| - 1], cs, row) + Tagged(|ms| - 1, MatchPositions(ms[|ms| - 1], cs, row))
  {
    var n := |ms| - 1;
    var init := ms[..n];
    var older := JoinPairs(init, cs, row);
    var last := Tagged(n, MatchPositions(ms[n], cs, row));
    forall p: (nat, nat) | p in JoinPairs(ms, cs, row)
      ensures p in older || p in last
    {
      var i, j := p.0, p.1;
      if i < n {
        assert init[i] == ms[i];
        assert p in older;
      } else {
        assert j in MatchPositions(ms[n], cs, row);
      }
    }
    forall p: (nat, nat) | p in older
      ensures p in JoinPairs(ms, cs, row)
    {
      var i, j := p.0, p.1;
      assert init[i] == ms[i];
    }
    forall p: (nat, nat) | p in last
      ensures p in JoinPairs(ms, cs, row)
    {
      var j := p.1;
      assert j in MatchPositions(ms[n], cs, row);
    }
  }

  /**
    Exactly one output row per (message row, category row) pair with equal
    id: each row occurs in the join as many times as there are such pairs
    that merge into it.
  */
  lemma {:induction false} InnerJoinMultiplicity(ms: seq<Message>, cs: seq<Categories>, row: Joined)
    ensures multiset(InnerJoin(ms, cs))[row] == |JoinPairs(ms, cs, row)|
    decreases |ms|
  {
    if |ms| == 0 {
      assert JoinPairs(ms, cs, row) == {};
    } else {
      var n := |ms| - 1;
      var init := ms[..n];
      InnerJoinMultiplicity(init, cs, row);
      MatchesOfMultiplicity(ms[n], cs, row);
      var older := JoinPairs(init, cs, row);
      var last := Tagged(n, MatchPositions(ms[n], cs, row));
      TaggedCard(n, MatchPositions(ms[n], cs, row));
      JoinPairsSplit(ms, cs, row);
      assert older * last == {} by {
        forall p | p in older ensures p.0 < n { }
      }
    }
  }

  /** Every pair of rows with equal ids shows up in the join. */
  lemma {:induction false} InnerJoinComplete(ms: seq<Message>, cs: seq<Categories>, i: nat, j: nat)
    requires i < |ms| && j < |cs| && ms[i].id == cs[j].id
    ensures Merge(ms[i], cs[j]) in InnerJoin(ms, cs)
  {
    InnerJoinMultiplicity(ms, cs, Merge(ms[i], cs[j]));
    assert (i, j) in JoinPairs(ms, cs, Merge(ms[i], cs[j]));
  }

  /**
    Every joined row is the merge of a message row and a category row with
    the same id; in particular its id occurs in both tables.
  */
  lemma InnerJoinSound(ms: seq<Message>, cs: seq<Categories>, row: Joined)
    requires row in InnerJoin(ms, cs)
    ensures exists i, j :: 0 <= i < |ms| && 0 <= j < |cs| && ms[i].id == cs[j].id == row.id && row == Merge(ms[i], cs[j])
  {
    InnerJoinMultiplicity(ms, cs, row);
    var p :| p in JoinPairs(ms, cs, row);
  }

  /** The positions of the category rows with the id of `m`. */
  ghost function MatchSet(m: Message, cs: seq<Categories>): set<nat> {
    set j: nat | j < |cs| && cs[j].id == m.id
  }

  /** The (message position, category position) pairs with equal ids. */
  ghost function AllPairs(ms: seq<Message>, cs: seq<Categories>): set<(nat, nat)> {
    set i: nat, j: nat | i < |ms| && j < |cs| && ms[i].id == cs[j].id :: (i, j)
  }

  /** `m` has one merged row per category row with its id. */
  lemma {:induction false} MatchesOfLength(m: Message, cs: seq<Categories>)
    ensures |MatchesOf(m, cs)| == |MatchSet(m, cs)|
    decreases |cs|
  {
    if |cs| == 0 {
      assert MatchSet(m, cs) == {};
    } else {
      var n := |cs| - 1;
      var init := cs[..n];
      MatchesOfLength(m, init);
      var here: set<nat> := if cs[n].id == m.id then {n} else {};
      forall j: nat | j < |cs|
        ensures j in MatchSet(m, cs) <==> j in MatchSet(m, init) || j in here
      {
        if j < n {
          assert init[j] == cs[j];
        }
      }
      assert MatchSet(m, cs) == MatchSet(m, init) + here;
      assert n !in MatchSet(m, init);
    }
  }

  /** The join has exactly as many rows as there are pairs of rows with equal ids. */
  lemma {:induction false} InnerJoinLength(ms: seq<Message>, cs: seq<Categories>)
    ensures |InnerJoin(ms, cs)| == |AllPairs(ms, cs)|
    decreases |ms|
  {
    if |ms| == 0 {
      assert AllPairs(ms, cs) == {};
    } else {
      var n := |ms| - 1;
      var init := ms[..n];
      InnerJoinLength(init, cs);
      MatchesOfLength(ms[n], cs);
      var older := AllPairs(init, cs);
      var last := Tagged(n, MatchSet(ms[n], cs));
      TaggedCard(n, MatchSet(ms[n], cs));
      forall p: (nat, nat) | p in AllPairs(ms, cs)
        ensures p in older || p in last
      {
        if p.0 < n {
          assert init[p.0] == ms[p.0];
        } else {
          assert p.1 in MatchSet(ms[n], cs);
        }
      }
      forall p: (nat, nat) | p in older
        ensures p in AllPairs(ms, cs)
      {
        assert init[p.0] == ms[p.0];
      }
      forall p: (nat, nat) | p in last
        ensures p in AllPairs(ms, cs)
      {
        assert p.1 in MatchSet(ms[n], cs);
      }
      assert AllPairs(ms, cs) == older + last;
      assert older * last == {} by {
        forall p | p in older ensures p.0 < n { }
      }
    }
  }
}
