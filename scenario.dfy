/** A worked example on four raw records, one of them without a critic
    score: the preparation of board.py:14-25 and two calls of the
    callback of board.py:88-118, evaluated step by step. */
module Scenario {
  import opened Seqs
  import opened Sorting
  import opened Preparation
  import opened Dashboard
  import opened Decimal

  function SampleRaw(): seq<RawRecord> {
    [ RawRecord(Some("A"), Some("PS2"), Some(2001), Some("Shooter"), Some(80), Some(75), Some("M")),
      RawRecord(Some("B"), Some("PS2"), Some(2001), Some("Sports"), Some(70), Some(60), Some("E")),
      RawRecord(Some("C"), Some("PC"), Some(2005), Some("Shooter"), Some(90), Some(85), Some("M")),
      RawRecord(Some("D"), Some("PC"), Some(2005), Some("Shooter"), None, Some(85), Some("M")) ]
  }

  function GameA(): Game { Game("A", "PS2", 2001, "Shooter", 80, 75, "M") }
  function GameB(): Game { Game("B", "PS2", 2001, "Sports", 70, 60, "E") }
  function GameC(): Game { Game("C", "PC", 2005, "Shooter", 90, 85, "M") }

  lemma SampleDropNa(raw: seq<RawRecord>)
    requires raw == SampleRaw()
    ensures DropNa(raw) == [GameA(), GameB(), GameC()]
  {
    var r1 := raw[1..];
    var r2 := r1[1..];
    var r3 := r2[1..];
    assert r3[1..] == [];
    assert DropNa(r3) == [];
    assert DropNa(r2) == [GameC()];
    assert DropNa(r1) == [GameB(), GameC()];
  }

  lemma SampleRecent()
    ensures Filter([GameA(), GameB(), GameC()], IsRecent) == [GameA(), GameB(), GameC()]
  {
  }

  lemma SampleSorted()
    ensures SortBy([GameA(), GameB(), GameC()], YearPlatformLe) == [GameA(), GameB(), GameC()]
  {
    assert StrLe("PS2", "PS2");
    assert SortBy([GameC()], YearPlatformLe) == [GameC()];
    assert SortBy([GameB(), GameC()], YearPlatformLe) == [GameB(), GameC()];
  }

  function SampleTable(): seq<Row> {
    [Row(GameA(), 2), Row(GameB(), 2), Row(GameC(), 1)]
  }

  lemma SampleCleaned(raw: seq<RawRecord>)
    requires raw == SampleRaw()
    ensures Cleaned(raw) == [GameA(), GameB(), GameC()]
  {
    SampleDropNa(raw);
    SampleRecent();
    SampleSorted();
  }

  lemma SampleKeys()
    ensures multiset(Keys([GameA(), GameB(), GameC()]))[Key(2001, "PS2")] == 2
    ensures multiset(Keys([GameA(), GameB(), GameC()]))[Key(2005, "PC")] == 1
  {
    var ks := Keys([GameA(), GameB(), GameC()]);
    assert ks[0] == Key(2001, "PS2") && ks[1] == Key(2001, "PS2") && ks[2] == Key(2005, "PC");
    assert ks == [Key(2001, "PS2"), Key(2001, "PS2"), Key(2005, "PC")];
  }

  lemma SampleTableShape(t: seq<Row>)
    requires |t| == 3
    requires t[0] == Row(GameA(), 2) && t[1] == Row(GameB(), 2) && t[2] == Row(GameC(), 1)
    ensures t == SampleTable()
  {
  }

  lemma SampleMerge(df: seq<Game>)
    requires df == [GameA(), GameB(), GameC()]
    ensures CountAndMerge(df) == SampleTable()
  {
    SampleKeys();
    CountAndMergeRows(df);
    var t := CountAndMerge(df);
    assert KeyOf(df[0]) == Key(2001, "PS2") && KeyOf(df[1]) == Key(2001, "PS2");
    assert KeyOf(df[2]) == Key(2005, "PC");
    SampleTableShape(t);
  }

  /** The record with a missing critic score is dropped; the others carry
      the sizes of their (year, platform) groups. */
  lemma SamplePrepared(raw: seq<RawRecord>)
    requires raw == SampleRaw()
    ensures Prepare(raw).table == SampleTable()
  {
    SampleCleaned(raw);
    SampleMerge(Cleaned(raw));
  }

  lemma WhereKeepsFirstAndLast(t: seq<Row>, c: Criteria)
    requires |t| == 3
    requires Matches(t[0], c) && !Matches(t[1], c) && Matches(t[2], c)
    ensures Where(t, c) == [t[0], t[2]]
  {
    var t1 := t[1..];
    var t2 := t1[1..];
    assert t1[0] == t[1] && t2[0] == t[2] && t2[1..] == [];
    WhereCons(t2, c);
    assert Where(t2, c) == [t[2]];
    WhereCons(t1, c);
    assert Where(t1, c) == [t[2]];
    WhereCons(t, c);
  }

  lemma WhereKeepsMiddle(t: seq<Row>, c: Criteria)
    requires |t| == 3
    requires !Matches(t[0], c) && Matches(t[1], c) && !Matches(t[2], c)
    ensures Where(t, c) == [t[1]]
  {
    var t1 := t[1..];
    var t2 := t1[1..];
    assert t1[0] == t[1] && t2[0] == t[2] && t2[1..] == [];
    WhereCons(t2, c);
    assert Where(t2, c) == [];
    WhereCons(t1, c);
    assert Where(t1, c) == [t[1]];
    WhereCons(t, c);
  }

  lemma ShootersOnSample(p: Prepared)
    requires p.table == SampleTable() && LabelsCover(p)
    ensures Select(p, ["Shooter"], [], 2000, 2010) == [Row(GameA(), 2), Row(GameC(), 1)]
  {
    var t := p.table;
    assert Row(GameA(), 2) in t;
    var c := Choose(p, ["Shooter"], [], YearRange(2000, 2010));
    assert Matches(t[0], c) && !Matches(t[1], c) && Matches(t[2], c);
    WhereKeepsFirstAndLast(t, c);
  }

  lemma RatingEOnSample(p: Prepared)
    requires p.table == SampleTable() && LabelsCover(p)
    ensures Select(p, [], ["E"], 2000, 2002) == [Row(GameB(), 2)]
  {
    var t := p.table;
    assert Row(GameB(), 2) in t;
    var c := Choose(p, [], ["E"], YearRange(2000, 2002));
    assert !Matches(t[0], c) && Matches(t[1], c) && !Matches(t[2], c);
    WhereKeepsMiddle(t, c);
  }

  /** Genre "Shooter", no rating, years 2000 to 2009: the two shooters,
      with 2 and 1 releases on their (year, platform). The record with a
      missing critic score is not among them. */
  lemma SampleShooters(raw: seq<RawRecord>)
    requires raw == SampleRaw()
    ensures Select(Prepare(raw), ["Shooter"], [], 2000, 2010) == [Row(GameA(), 2), Row(GameC(), 1)]
  {
    SamplePrepared(raw);
    AvailableLabels(raw);
    ShootersOnSample(Prepare(raw));
  }

  /** Rating "E", no genre, years 2000 and 2001: the one sports game. */
  lemma SampleRatingE(raw: seq<RawRecord>)
    requires raw == SampleRaw()
    ensures Select(Prepare(raw), [], ["E"], 2000, 2002) == [Row(GameB(), 2)]
  {
    SamplePrepared(raw);
    AvailableLabels(raw);
    RatingEOnSample(Prepare(raw));
  }

  lemma TwoRowText(rows: seq<Row>)
    requires |rows| == 2
    ensures QuantityText(rows) == "Selected games quantity: 16"
  {
    assert NatToDecimal(16) == "16";
  }

  lemma SampleViews(p: Prepared)
    requires p.table == SampleTable() && LabelsCover(p)
    ensures Update(p, ["Shooter"], [], 2000, 2010).area == [Row(GameA(), 2), Row(GameC(), 1)]
    ensures Update(p, ["Shooter"], [], 2000, 2010).text == "Selected games quantity: 16"
    ensures Update(p, [], ["E"], 2000, 2002).area == [Row(GameB(), 2)]
  {
    ShootersOnSample(p);
    RatingEOnSample(p);
    TwoRowText(Select(p, ["Shooter"], [], 2000, 2010));
  }

  /** Two interactions with a dashboard that has recorded nothing yet:
      each call records its own selections, and its answer depends on them
      alone, not on what was recorded before. */
  method TwoCalls(board: Board) returns (first: View, second: View)
    requires board.chosenGenres == [] && board.chosenRatings == []
    modifies board
    ensures first == Update(board.prepared, ["Shooter"], [], 2000, 2010)
    ensures second == Update(board.prepared, [], ["E"], 2000, 2002)
    ensures board.chosenGenres == [["Shooter"], []] && board.chosenRatings == [[], ["E"]]
  {
    first := board.UpdateDash(["Shooter"], [], [2000, 2010]);
    second := board.UpdateDash([], ["E"], [2000, 2002]);
  }

  /** The sample records, prepared, give the sample table with labels
      that cover it. */
  lemma SampleStart(raw: seq<RawRecord>)
    requires raw == SampleRaw()
    ensures Prepare(raw).table == SampleTable() && LabelsCover(Prepare(raw))
  {
    SamplePrepared(raw);
    AvailableLabels(raw);
  }

  /** The two interactions on a dashboard started on the sample records.
      The first answer reports 16, the element count of a two-row,
      eight-column frame. */
  method SampleSession() returns (first: View, second: View)
    ensures first.area == [Row(GameA(), 2), Row(GameC(), 1)]
    ensures first.text == "Selected games quantity: 16"
    ensures second.area == [Row(GameB(), 2)]
  {
    var raw := SampleRaw();
    SampleStart(raw);
    var board := new Board(raw);
    SampleViews(board.prepared);
    first, second := TwoCalls(board);
  }
}
