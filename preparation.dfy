/** The one-time preparation of the games table (board.py:14-25): drop the
    records with a missing field, keep the releases from 2000 on, order
    them by (year, platform), count the releases per (year, platform),
    attach that count to every record through an outer join on the two
    keys, and collect the distinct genres and ratings. */
module Preparation {
  import opened Seqs
  import opened Sorting

  /** A line of the games file as read: any field may be missing (NaN).
      Scores are kept as an ordered integer key. */
  datatype RawRecord = RawRecord(
    name: Option<string>,
    platform: Option<string>,
    year: Option<int>,
    genre: Option<string>,
    criticScore: Option<int>,
    userScore: Option<int>,
    rating: Option<string>)

  /** A record with every field present. */
  datatype Game = Game(
    name: string,
    platform: string,
    year: int,
    genre: string,
    criticScore: int,
    userScore: int,
    rating: string)

  /** The join keys of the count and the merge. */
  datatype Key = Key(year: int, platform: string)

  /** One (year, platform) group with the number of its records. */
  datatype Group = Group(key: Key, count: nat)

  /** A row of an outer merge of the games with the group counts: matched
      on both sides, or present on one side only (the other side's
      columns missing). */
  datatype JoinedRow =
    | Both(game: Game, quantity: nat)
    | LeftOnly(game: Game)
    | RightOnly(key: Key, count: nat)

  /** A row of the prepared table: a game and its "Games quantity". */
  datatype Row = Row(game: Game, quantity: nat)

  /** The prepared table and the labels offered by the two dropdowns. */
  datatype Prepared = Prepared(table: seq<Row>, genres: seq<string>, ratings: seq<string>)

  const FirstYear := 2000

  // ---------------------------------------------------------------------
  // Dropping incomplete records (board.py:15)

  predicate Complete(r: RawRecord) {
    && r.name.Some? && r.platform.Some? && r.year.Some? && r.genre.Some?
    && r.criticScore.Some? && r.userScore.Some? && r.rating.Some?
  }

  /** The raw record that carries exactly the fields of `g`. */
  function Fill(g: Game): (r: RawRecord)
    ensures Complete(r)
  {
    RawRecord(Some(g.name), Some(g.platform), Some(g.year), Some(g.genre),
              Some(g.criticScore), Some(g.userScore), Some(g.rating))
  }

  function ToGame(r: RawRecord): (g: Game)
    requires Complete(r)
    ensures Fill(g) == r
  {
    Game(r.name.value, r.platform.value, r.year.value, r.genre.value,
         r.criticScore.value, r.userScore.value, r.rating.value)
  }

  /** `DataFrame.dropna()`: the complete records, in order. */
  function DropNa(raw: seq<RawRecord>): (games: seq<Game>)
    ensures |games| <= |raw|
  {
    if raw == [] then []
    else if Complete(raw[0]) then [ToGame(raw[0])] + DropNa(raw[1..])
    else DropNa(raw[1..])
  }

  /** The raw records a sequence of games was filled from. */
  function Fills(gs: seq<Game>): (rs: seq<RawRecord>)
    ensures |rs| == |gs|
  {
    seq(|gs|, i requires 0 <= i < |gs| => Fill(gs[i]))
  }

  /** `dropna()` keeps the complete records in their order: filling the
      kept games back in gives the raw table with the incomplete records
      deleted. */
  lemma {:induction false} DropNaInOrder(raw: seq<RawRecord>)
    ensures Fills(DropNa(raw)) == Filter(raw, Complete)
  {
    if raw != [] {
      DropNaInOrder(raw[1..]);
      if Complete(raw[0]) {
        assert Fills(DropNa(raw)) == [Fill(ToGame(raw[0]))] + Fills(DropNa(raw[1..]));
      }
    }
  }

  /** A game occurs in `DropNa(raw)` exactly as often as a complete record
      with its fields occurs in `raw`, so no record with a missing field
      contributes anything. */
  lemma {:induction false} DropNaCounts(raw: seq<RawRecord>)
    ensures forall g :: multiset(DropNa(raw))[g] == multiset(raw)[Fill(g)]
  {
    if raw != [] {
      assert raw == [raw[0]] + raw[1..];
      DropNaCounts(raw[1..]);
      if Complete(raw[0]) {
        var g0 := ToGame(raw[0]);
        assert forall g :: Fill(g) == raw[0] <==> g == g0;
      }
    }
  }

  // ---------------------------------------------------------------------
  // Year restriction and ordering (board.py:16)

  predicate IsRecent(g: Game) {
    g.year >= FirstYear
  }

  /** Python's `<=` on strings: lexicographic by code point, a proper
      prefix before the longer string. */
  predicate StrLe(a: string, b: string) {
    if a == [] then true
    else if b == [] then false
    else if a[0] != b[0] then a[0] < b[0]
    else StrLe(a[1..], b[1..])
  }

  lemma {:induction false} StrLeTotal(a: string, b: string)
    ensures StrLe(a, b) || StrLe(b, a)
  {
    if a != [] && b != [] && a[0] == b[0] {
      StrLeTotal(a[1..], b[1..]);
    }
  }

  lemma {:induction false} StrLeTransitive(a: string, b: string, c: string)
    requires StrLe(a, b) && StrLe(b, c)
    ensures StrLe(a, c)
  {
    if a != [] && a[0] == b[0] && b[0] == c[0] {
      StrLeTransitive(a[1..], b[1..], c[1..]);
    }
  }

  /** The order of `sort_values(by=['Year_of_Release', 'Platform'])`. */
  predicate YearPlatformLe(a: Game, b: Game) {
    a.year < b.year || (a.year == b.year && StrLe(a.platform, b.platform))
  }

  lemma YearPlatformPreorder()
    ensures Total(YearPlatformLe) && Transitive(YearPlatformLe)
  {
    forall a: Game, b: Game ensures YearPlatformLe(a, b) || YearPlatformLe(b, a) {
      StrLeTotal(a.platform, b.platform);
    }
    forall a: Game, b: Game, c: Game | YearPlatformLe(a, b) && YearPlatformLe(b, c)
      ensures YearPlatformLe(a, c)
    {
      if a.year == b.year == c.year {
        StrLeTransitive(a.platform, b.platform, c.platform);
      }
    }
  }

  /** The table after board.py:15-16: complete records from 2000 on,
      ordered by (year, platform). */
  function Cleaned(raw: seq<RawRecord>): (df: seq<Game>)
    ensures |df| <= |raw|
    ensures forall g :: g in df ==> g.year >= FirstYear
  {
    var recent := Filter(DropNa(raw), IsRecent);
    var df := SortBy(recent, YearPlatformLe);
    assert forall g :: g in df ==> g in recent by {
      forall g | g in df ensures g in recent {
        assert g in multiset(df);
      }
    }
    df
  }

  // ---------------------------------------------------------------------
  // Counting per (year, platform) (board.py:18)

  function KeyOf(g: Game): Key {
    Key(g.year, g.platform)
  }

  function Keys(t: seq<Game>): (ks: seq<Key>)
    ensures |ks| == |t|
  {
    seq(|t|, i requires 0 <= i < |t| => KeyOf(t[i]))
  }

  /** The number of games of `t` with key `k`, counted one by one as
      `count()` does on a group. */
  function GroupSize(t: seq<Game>, k: Key): (n: nat)
    ensures n == multiset(Keys(t))[k]
  {
    if t == [] then 0
    else
      assert Keys(t) == [KeyOf(t[0])] + Keys(t[1..]);
      (if KeyOf(t[0]) == k then 1 else 0) + GroupSize(t[1..], k)
  }

  function GroupKeys(grp: seq<Group>): (ks: seq<Key>)
    ensures |ks| == |grp|
  {
    seq(|grp|, i requires 0 <= i < |grp| => grp[i].key)
  }

  /** `df.groupby(["Year_of_Release", "Platform"])["Name"].count()`: one
      group per distinct key of `t`, each with the number of games of
      `t` that have that key. */
  function GroupCounts(t: seq<Game>): (grp: seq<Group>)
    ensures NoDuplicates(GroupKeys(grp))
    ensures forall k :: k in GroupKeys(grp) <==> k in Keys(t)
    ensures forall i :: 0 <= i < |grp| ==> grp[i].count == multiset(Keys(t))[grp[i].key]
  {
    var ks := Unique(Keys(t));
    var grp := seq(|ks|, i requires 0 <= i < |ks| => Group(ks[i], GroupSize(t, ks[i])));
    assert GroupKeys(grp) == ks;
    grp
  }

  // ---------------------------------------------------------------------
  // The outer merge on (year, platform) (board.py:20-22)

  function GroupsWithKey(right: seq<Group>, k: Key): seq<Group> {
    Filter(right, (h: Group) => h.key == k)
  }

  /** The merged rows contributed by one game: one per group with its key,
      or a left-only row when there is none. */
  function RowsFor(g: Game, right: seq<Group>): seq<JoinedRow> {
    var ms := GroupsWithKey(right, KeyOf(g));
    if ms == [] then [LeftOnly(g)]
    else seq(|ms|, i requires 0 <= i < |ms| => Both(g, ms[i].count))
  }

  function MergeLeft(left: seq<Game>, right: seq<Group>): (m: seq<JoinedRow>)
    ensures |m| >= |left|
  {
    if left == [] then [] else RowsFor(left[0], right) + MergeLeft(left[1..], right)
  }

  /** The groups whose key no game has, as right-only rows. */
  function RightOnlyRows(right: seq<Group>, leftKeys: seq<Key>): seq<JoinedRow> {
    var rest := Filter(right, (h: Group) => h.key !in leftKeys);
    seq(|rest|, i requires 0 <= i < |rest| => RightOnly(rest[i].key, rest[i].count))
  }

  /** `pd.merge(left, right, how='outer', on=[year, platform])`. */
  function OuterMerge(left: seq<Game>, right: seq<Group>): (m: seq<JoinedRow>)
    ensures |m| >= |left|
  {
    MergeLeft(left, right) + RightOnlyRows(right, Keys(left))
  }

  lemma {:induction false} KeyInGroupKeys(right: seq<Group>, h: Group)
    requires h in right
    ensures h.key in GroupKeys(right)
  {
    var i :| 0 <= i < |right| && right[i] == h;
    assert GroupKeys(right)[i] == h.key;
  }

  lemma GroupsWithKeyCons(right: seq<Group>, k: Key)
    requires right != []
    ensures GroupsWithKey(right, k) ==
      (if right[0].key == k then [right[0]] else []) + GroupsWithKey(right[1..], k)
  {
  }

  lemma GroupKeysCons(right: seq<Group>)
    requires right != []
    ensures GroupKeys(right) == [right[0].key] + GroupKeys(right[1..])
  {
  }

  /** With distinct group keys, a key that occurs matches exactly one group. */
  lemma {:induction false} UniqueKeyMatch(right: seq<Group>, k: Key)
    requires NoDuplicates(GroupKeys(right))
    requires k in GroupKeys(right)
    ensures |GroupsWithKey(right, k)| == 1
    ensures GroupsWithKey(right, k)[0] in right && GroupsWithKey(right, k)[0].key == k
  {
    var h, rest := right[0], right[1..];
    GroupKeysCons(right);
    GroupsWithKeyCons(right, k);
    var tail := GroupsWithKey(rest, k);
    assert GroupKeys(right)[1..] == GroupKeys(rest);
    NoDuplicatesTail(GroupKeys(right));
    if h.key == k {
      if tail != [] {
        KeyInGroupKeys(rest, tail[0]);
        assert false;
      }
    } else {
      UniqueKeyMatch(rest, k);
    }
  }

  /** When every game's key names exactly one group, the left part of the
      merge is one matched row per game, in the games' order, carrying
      that group's count. */
  lemma {:induction false} MergeLeftMatched(left: seq<Game>, right: seq<Group>)
    requires NoDuplicates(GroupKeys(right))
    requires forall i :: 0 <= i < |left| ==> KeyOf(left[i]) in GroupKeys(right)
    ensures |MergeLeft(left, right)| == |left|
    ensures forall i :: 0 <= i < |left| ==>
      && MergeLeft(left, right)[i].Both?
      && MergeLeft(left, right)[i].game == left[i]
      && Group(KeyOf(left[i]), MergeLeft(left, right)[i].quantity) in right
  {
    if left != [] {
      UniqueKeyMatch(right, KeyOf(left[0]));
      MergeLeftMatched(left[1..], right);
      var m := MergeLeft(left, right);
      var tail := MergeLeft(left[1..], right);
      var ms := GroupsWithKey(right, KeyOf(left[0]));
      assert RowsFor(left[0], right) == [Both(left[0], ms[0].count)];
      assert m == [Both(left[0], ms[0].count)] + tail;
      assert ms[0] == Group(KeyOf(left[0]), ms[0].count);
      forall i | 0 <= i < |left|
        ensures m[i].Both? && m[i].game == left[i] && Group(KeyOf(left[i]), m[i].quantity) in right
      {
        if i > 0 {
          assert m[i] == tail[i - 1] && left[i] == left[1..][i - 1];
        }
      }
    }
  }

  /** The merge of board.py:20 neither adds nor removes rows when the groups
      are those of the same table: every game is matched exactly once and
      no group is left over. */
  lemma OuterMergeMatched(left: seq<Game>, right: seq<Group>)
    requires NoDuplicates(GroupKeys(right))
    requires forall i :: 0 <= i < |left| ==> KeyOf(left[i]) in GroupKeys(right)
    requires forall k :: k in GroupKeys(right) ==> k in Keys(left)
    ensures |OuterMerge(left, right)| == |left|
    ensures forall i :: 0 <= i < |left| ==>
      && OuterMerge(left, right)[i].Both?
      && OuterMerge(left, right)[i].game == left[i]
      && Group(KeyOf(left[i]), OuterMerge(left, right)[i].quantity) in right
  {
    MergeLeftMatched(left, right);
    var rest := Filter(right, (h: Group) => h.key !in Keys(left));
    if rest != [] {
      KeyInGroupKeys(right, rest[0]);
      assert false;
    }
    assert RightOnlyRows(right, Keys(left)) == [];
    assert OuterMerge(left, right) == MergeLeft(left, right);
  }

  // ---------------------------------------------------------------------
  // The whole preparation (board.py:14-25)

  function Games(t: seq<Row>): (gs: seq<Game>)
    ensures |gs| == |t|
  {
    seq(|t|, i requires 0 <= i < |t| => t[i].game)
  }

  function Genres(t: seq<Row>): seq<string> {
    seq(|t|, i requires 0 <= i < |t| => t[i].game.genre)
  }

  function Ratings(t: seq<Row>): seq<string> {
    seq(|t|, i requires 0 <= i < |t| => t[i].game.rating)
  }

  /** Every game's (year, platform) is the key of one of its table's groups. */
  lemma EveryKeyGrouped(df: seq<Game>)
    ensures forall i :: 0 <= i < |df| ==> KeyOf(df[i]) in GroupKeys(GroupCounts(df))
  {
    forall i | 0 <= i < |df| ensures KeyOf(df[i]) in GroupKeys(GroupCounts(df)) {
      assert Keys(df)[i] == KeyOf(df[i]);
    }
  }

  /** board.py:18-22 on the cleaned games: count per (year, platform),
      merge the counts back onto the games, and name the count column
      "Games quantity". */
  function CountAndMerge(df: seq<Game>): (rows: seq<Row>)
    ensures |rows| == |df|
  {
    var grp := GroupCounts(df);
    EveryKeyGrouped(df);
    OuterMergeMatched(df, grp);
    var joined := OuterMerge(df, grp);
    seq(|joined|, i requires 0 <= i < |joined| && joined[i].Both? =>
        Row(joined[i].game, joined[i].quantity))
  }

  /** Row `i` of the merged table is game `i` with the number of games
      sharing its (year, platform): the join neither adds, removes nor
      reorders rows. */
  lemma CountAndMergeRows(df: seq<Game>)
    ensures |CountAndMerge(df)| == |df|
    ensures forall i :: 0 <= i < |df| ==>
      CountAndMerge(df)[i] == Row(df[i], multiset(Keys(df))[KeyOf(df[i])])
  {
    var grp := GroupCounts(df);
    EveryKeyGrouped(df);
    OuterMergeMatched(df, grp);
    var joined := OuterMerge(df, grp);
    var t := CountAndMerge(df);
    forall i | 0 <= i < |df| ensures t[i] == Row(df[i], multiset(Keys(df))[KeyOf(df[i])]) {
      assert Group(KeyOf(df[i]), joined[i].quantity) in grp;
    }
  }

  /** The whole preparation: the merged table of the cleaned games and the
      genre and rating labels (`Series.unique()`). */
  function Prepare(raw: seq<RawRecord>): (p: Prepared)
    ensures |p.table| <= |raw|
    ensures NoDuplicates(p.genres) && NoDuplicates(p.ratings)
  {
    var table := CountAndMerge(Cleaned(raw));
    Prepared(table, Unique(Genres(table)), Unique(Ratings(table)))
  }

  // ---------------------------------------------------------------------
  // Properties of the prepared table

  /** Row `i` of the prepared table is game `i` of the cleaned table with
      the number of cleaned games sharing its (year, platform): the join
      neither adds, removes nor reorders rows. */
  lemma PreparedRows(raw: seq<RawRecord>)
    ensures Games(Prepare(raw).table) == Cleaned(raw)
    ensures forall i :: 0 <= i < |Prepare(raw).table| ==>
      Prepare(raw).table[i].quantity == multiset(Keys(Cleaned(raw)))[KeyOf(Cleaned(raw)[i])]
  {
    CountAndMergeRows(Cleaned(raw));
  }

  /** "Games quantity" on every prepared row is the number of prepared rows
      with the same (year, platform). */
  lemma QuantityCountsKey(raw: seq<RawRecord>)
    ensures forall i :: 0 <= i < |Prepare(raw).table| ==>
      Prepare(raw).table[i].quantity ==
        multiset(Keys(Games(Prepare(raw).table)))[KeyOf(Prepare(raw).table[i].game)]
  {
    PreparedRows(raw);
  }

  /** The prepared games are exactly the complete raw records from 2000 on,
      each as often as it occurs among the raw records. */
  lemma PreparedGames(raw: seq<RawRecord>)
    ensures forall g ::
      multiset(Games(Prepare(raw).table))[g] == (if g.year >= FirstYear then multiset(raw)[Fill(g)] else 0)
  {
    PreparedRows(raw);
    DropNaCounts(raw);
    FilterExact(DropNa(raw), IsRecent);
  }

  /** Every prepared row comes from a complete raw record of 2000 or later. */
  lemma PreparedRowsComplete(raw: seq<RawRecord>)
    ensures forall r :: r in Prepare(raw).table ==> r.game.year >= FirstYear && Fill(r.game) in raw
  {
    PreparedGames(raw);
    var t := Prepare(raw).table;
    forall r | r in t ensures r.game.year >= FirstYear && Fill(r.game) in raw {
      var i :| 0 <= i < |t| && t[i] == r;
      assert Games(t)[i] == r.game;
      assert multiset(Games(t))[r.game] > 0;
    }
  }

  /** The prepared table is ordered ascending by (year, platform). */
  lemma PreparedSorted(raw: seq<RawRecord>)
    ensures forall i, j :: 0 <= i < j < |Prepare(raw).table| ==>
      YearPlatformLe(Prepare(raw).table[i].game, Prepare(raw).table[j].game)
  {
    PreparedRows(raw);
    YearPlatformPreorder();
    SortBySorted(Filter(DropNa(raw), IsRecent), YearPlatformLe);
    var t := Prepare(raw).table;
    forall i, j | 0 <= i < j < |t| ensures YearPlatformLe(t[i].game, t[j].game) {
      assert t[i].game == Games(t)[i] && t[j].game == Games(t)[j];
    }
  }

  /** Every row's genre and rating occur in the table's label columns. */
  lemma TableLabels(t: seq<Row>)
    ensures forall r :: r in t ==> r.game.genre in Genres(t) && r.game.rating in Ratings(t)
  {
    forall r | r in t ensures r.game.genre in Genres(t) && r.game.rating in Ratings(t) {
      var i :| 0 <= i < |t| && t[i] == r;
      assert Genres(t)[i] == r.game.genre && Ratings(t)[i] == r.game.rating;
    }
  }

  /** Every row's genre and rating are among the offered labels. */
  predicate LabelsCover(p: Prepared) {
    forall r :: r in p.table ==> r.game.genre in p.genres && r.game.rating in p.ratings
  }

  /** The dropdown labels list each genre and each rating of the prepared
      table once, and nothing else. */
  lemma AvailableLabels(raw: seq<RawRecord>)
    ensures NoDuplicates(Prepare(raw).genres) && NoDuplicates(Prepare(raw).ratings)
    ensures forall x :: x in Prepare(raw).genres <==> x in Genres(Prepare(raw).table)
    ensures forall x :: x in Prepare(raw).ratings <==> x in Ratings(Prepare(raw).table)
    ensures LabelsCover(Prepare(raw))
  {
    TableLabels(Prepare(raw).table);
  }
}
