/** The callback `update_dash` (board.py:88-120) and the module-level
    selection history it appends to (board.py:76-77). Each call records
    the dropdown values, keeps the labels of the prepared table that the
    latest values name, picks one of four filters depending on which
    selections are non-empty, and returns the summary text and the two
    frames handed to the charts. */
module Dashboard {
  import opened Seqs
  import opened Sorting
  import opened Decimal
  import opened Preparation

  /** The filter one branch of board.py:95-102 applies: a genre list and a
      rating list when that filter is active (`isin`), and the year list. */
  datatype Criteria = Criteria(genres: Option<seq<string>>, ratings: Option<seq<string>>, years: seq<int>)

  /** What the callback returns: the summary text, the frame of the area
      chart and the frame of the scatter chart. */
  datatype View = View(text: string, area: seq<Row>, scatter: seq<Row>)

  const Prefix := "Selected games quantity: "

  /** Columns of the merged frame: the seven record fields and
      "Games quantity". */
  const ColumnCount := 8

  /** `list(range(lo, hi))` (board.py:93). */
  function YearRange(lo: int, hi: int): (ys: seq<int>)
    ensures forall y :: y in ys <==> lo <= y < hi
    ensures |ys| == if lo < hi then hi - lo else 0
  {
    if lo < hi then
      var ys := seq(hi - lo, i requires 0 <= i < hi - lo => lo + i);
      assert forall y :: lo <= y < hi ==> y in ys by {
        forall y | lo <= y < hi ensures y in ys {
          assert ys[y - lo] == y;
        }
      }
      ys
    else []
  }

  /** `[i for i in available if i in chosen]` (board.py:91-92). */
  function Labels(available: seq<string>, chosen: seq<string>): (labels: seq<string>)
    ensures forall x :: x in labels <==> x in available && x in chosen
  {
    Filter(available, (x: string) => x in chosen)
  }

  /** The four-way branch of board.py:95-102. The branch is picked on the
      selections as received, not on the labels kept from them. */
  function Choose(p: Prepared, chosenGenres: seq<string>, chosenRatings: seq<string>, years: seq<int>): (c: Criteria)
    ensures c.genres.Some? <==> chosenGenres != []
    ensures c.ratings.Some? <==> chosenRatings != []
    ensures c.genres.Some? ==> forall x :: x in c.genres.value <==> x in p.genres && x in chosenGenres
    ensures c.ratings.Some? ==> forall x :: x in c.ratings.value <==> x in p.ratings && x in chosenRatings
    ensures c.years == years
  {
    var genres := Labels(p.genres, chosenGenres);
    var ratings := Labels(p.ratings, chosenRatings);
    if chosenGenres != [] && chosenRatings != [] then Criteria(Some(genres), Some(ratings), years)
    else if chosenGenres != [] then Criteria(Some(genres), None, years)
    else if chosenRatings != [] then Criteria(None, Some(ratings), years)
    else Criteria(None, None, years)
  }

  predicate Matches(r: Row, c: Criteria) {
    && (c.genres.Some? ==> r.game.genre in c.genres.value)
    && (c.ratings.Some? ==> r.game.rating in c.ratings.value)
    && r.game.year in c.years
  }

  /** The chained `.loc[... .isin(...)]` masks of one branch, as one
      conjunction over the rows. */
  function Where(t: seq<Row>, c: Criteria): seq<Row> {
    Filter(t, (r: Row) => Matches(r, c))
  }

  lemma WhereCons(t: seq<Row>, c: Criteria)
    requires t != []
    ensures Where(t, c) == (if Matches(t[0], c) then [t[0]] else []) + Where(t[1..], c)
  {
  }

  /** `abs_main_frame` for the given selections and slider values. */
  function Select(p: Prepared, chosenGenres: seq<string>, chosenRatings: seq<string>, lo: int, hi: int): (rows: seq<Row>)
    ensures |rows| <= |p.table|
    ensures forall r :: r in rows ==> r in p.table && lo <= r.game.year < hi
  {
    Where(p.table, Choose(p, chosenGenres, chosenRatings, YearRange(lo, hi)))
  }

  /** `'Selected games quantity: {}'.format(abs_main_frame.size)`
      (board.py:118): the number shown is the frame's element count, rows
      times columns. */
  function QuantityText(rows: seq<Row>): (text: string)
    ensures |text| > |Prefix| && text[..|Prefix|] == Prefix
    ensures var digits := text[|Prefix|..];
      && (forall i :: 0 <= i < |digits| ==> IsDigit(digits[i]))
      && DigitsValue(digits) == |rows| * ColumnCount
      && (digits[0] != '0' || |digits| == 1)
  {
    var digits := NatToDecimal(|rows| * ColumnCount);
    DecimalRoundTrip(|rows| * ColumnCount);
    assert (Prefix + digits)[|Prefix|..] == digits;
    Prefix + digits
  }

  /** The order of `sort_values('User Score')`. */
  predicate UserScoreLe(a: Row, b: Row) {
    a.game.userScore <= b.game.userScore
  }

  lemma UserScorePreorder()
    ensures Total(UserScoreLe) && Transitive(UserScoreLe)
  {
  }

  /** The callback's outputs for one set of inputs (board.py:91-118). */
  function Update(p: Prepared, chosenGenres: seq<string>, chosenRatings: seq<string>, lo: int, hi: int): (v: View)
    ensures v.text == QuantityText(v.area)
    ensures multiset(v.scatter) == multiset(v.area)
    ensures forall r :: r in v.area ==> r in p.table && lo <= r.game.year < hi
  {
    var rows := Select(p, chosenGenres, chosenRatings, lo, hi);
    View(QuantityText(rows), rows, SortBy(rows, UserScoreLe))
  }

  // ---------------------------------------------------------------------
  // What the selection means

  /** The selection rule stated without branches: the row's year lies in
      the half-open window and, for each non-empty selection, the row's
      label is both selected and one of the offered labels. */
  predicate Wanted(p: Prepared, chosenGenres: seq<string>, chosenRatings: seq<string>, lo: int, hi: int, r: Row) {
    && lo <= r.game.year < hi
    && (chosenGenres != [] ==> r.game.genre in chosenGenres && r.game.genre in p.genres)
    && (chosenRatings != [] ==> r.game.rating in chosenRatings && r.game.rating in p.ratings)
  }

  /** The four branches together select, in table order, exactly the rows
      of the table that are wanted. */
  lemma SelectIsConjunction(p: Prepared, chosenGenres: seq<string>, chosenRatings: seq<string>, lo: int, hi: int)
    ensures Select(p, chosenGenres, chosenRatings, lo, hi) ==
      Filter(p.table, (r: Row) => Wanted(p, chosenGenres, chosenRatings, lo, hi, r))
  {
    var c := Choose(p, chosenGenres, chosenRatings, YearRange(lo, hi));
    forall r: Row | r in p.table
      ensures Matches(r, c) == Wanted(p, chosenGenres, chosenRatings, lo, hi, r)
    {
    }
    FilterCongruent(p.table, (r: Row) => Matches(r, c),
                    (r: Row) => Wanted(p, chosenGenres, chosenRatings, lo, hi, r));
  }

  /** Soundness, completeness and order: a row is kept exactly as often as
      it occurs in the table if it is wanted and not at all otherwise, and
      the result is a subsequence of the table. */
  lemma SelectExact(p: Prepared, chosenGenres: seq<string>, chosenRatings: seq<string>, lo: int, hi: int)
    ensures IsSubsequence(Select(p, chosenGenres, chosenRatings, lo, hi), p.table)
    ensures forall r ::
      multiset(Select(p, chosenGenres, chosenRatings, lo, hi))[r] ==
      (if Wanted(p, chosenGenres, chosenRatings, lo, hi, r) then multiset(p.table)[r] else 0)
  {
    SelectIsConjunction(p, chosenGenres, chosenRatings, lo, hi);
    FilterExact(p.table, (r: Row) => Wanted(p, chosenGenres, chosenRatings, lo, hi, r));
  }

  /** Every kept row lies in the year window `lo <= year < hi` (a row of
      the slider's upper year is never kept) and carries, for each
      non-empty selection, a label that is both selected and offered. */
  lemma SelectSound(p: Prepared, chosenGenres: seq<string>, chosenRatings: seq<string>, lo: int, hi: int, r: Row)
    requires r in Select(p, chosenGenres, chosenRatings, lo, hi)
    ensures r in p.table
    ensures lo <= r.game.year < hi
    ensures chosenGenres != [] ==> r.game.genre in chosenGenres && r.game.genre in p.genres
    ensures chosenRatings != [] ==> r.game.rating in chosenRatings && r.game.rating in p.ratings
  {
    SelectIsConjunction(p, chosenGenres, chosenRatings, lo, hi);
  }

  /** When the offered labels cover the table (as they do for a prepared
      table, Preparation.AvailableLabels), every row in the window whose
      labels are selected, or whose selection is empty, is kept. */
  lemma SelectComplete(p: Prepared, chosenGenres: seq<string>, chosenRatings: seq<string>, lo: int, hi: int, r: Row)
    requires LabelsCover(p)
    requires r in p.table
    requires lo <= r.game.year < hi
    requires chosenGenres != [] ==> r.game.genre in chosenGenres
    requires chosenRatings != [] ==> r.game.rating in chosenRatings
    ensures r in Select(p, chosenGenres, chosenRatings, lo, hi)
  {
    SelectIsConjunction(p, chosenGenres, chosenRatings, lo, hi);
  }

  /** An empty selection is no filter: with both selections empty the result
      is the year-window filter of the whole table. */
  lemma EmptySelectionsFilterYearsOnly(p: Prepared, lo: int, hi: int)
    ensures Select(p, [], [], lo, hi) == Filter(p.table, (r: Row) => lo <= r.game.year < hi)
  {
    SelectIsConjunction(p, [], [], lo, hi);
    FilterCongruent(p.table, (r: Row) => Wanted(p, [], [], lo, hi, r), (r: Row) => lo <= r.game.year < hi);
  }

  /** A non-empty selection that names no offered label still picks a
      filtering branch, and that branch keeps nothing. */
  lemma UnknownLabelsSelectNothing(p: Prepared, chosenGenres: seq<string>, chosenRatings: seq<string>, lo: int, hi: int)
    requires
      || (chosenGenres != [] && forall g :: g in chosenGenres ==> g !in p.genres)
      || (chosenRatings != [] && forall x :: x in chosenRatings ==> x !in p.ratings)
    ensures Select(p, chosenGenres, chosenRatings, lo, hi) == []
  {
    var s := Select(p, chosenGenres, chosenRatings, lo, hi);
    if s != [] {
      SelectSound(p, chosenGenres, chosenRatings, lo, hi, s[0]);
      assert false;
    }
  }

  /** A window with `hi <= lo` is empty, whatever the selections. */
  lemma EmptyWindowSelectsNothing(p: Prepared, chosenGenres: seq<string>, chosenRatings: seq<string>, lo: int, hi: int)
    requires hi <= lo
    ensures Select(p, chosenGenres, chosenRatings, lo, hi) == []
  {
    var s := Select(p, chosenGenres, chosenRatings, lo, hi);
    if s != [] {
      SelectSound(p, chosenGenres, chosenRatings, lo, hi, s[0]);
      assert false;
    }
  }

  /** The scatter frame is the selected rows, reordered ascending by user
      score; the area frame is the selected rows as they are. */
  lemma ViewFrames(p: Prepared, chosenGenres: seq<string>, chosenRatings: seq<string>, lo: int, hi: int)
    ensures Update(p, chosenGenres, chosenRatings, lo, hi).area == Select(p, chosenGenres, chosenRatings, lo, hi)
    ensures multiset(Update(p, chosenGenres, chosenRatings, lo, hi).scatter) ==
      multiset(Select(p, chosenGenres, chosenRatings, lo, hi))
    ensures SortedBy(Update(p, chosenGenres, chosenRatings, lo, hi).scatter, UserScoreLe)
  {
    UserScorePreorder();
    SortBySorted(Select(p, chosenGenres, chosenRatings, lo, hi), UserScoreLe);
  }

  // ---------------------------------------------------------------------
  // The module-level state and the callback

  /** The dashboard's module-level state: the prepared table, fixed at
      start-up, and the two lists every call of the callback appends its
      dropdown values to. */
  class Board {
    const prepared: Prepared
    var chosenGenres: seq<seq<string>>
    var chosenRatings: seq<seq<string>>

    /** board.py:14-25 and 76-77. */
    constructor (raw: seq<RawRecord>)
      ensures prepared == Prepare(raw)
      ensures chosenGenres == [] && chosenRatings == []
    {
      prepared := Prepare(raw);
      chosenGenres := [];
      chosenRatings := [];
    }

    /** `update_dash`: records the selections, then computes the outputs
        from the entries just recorded, i.e. from this call's arguments. */
    method UpdateDash(selectedGenre: seq<string>, selectedRating: seq<string>, yearInterval: seq<int>)
      returns (view: View)
      requires |yearInterval| >= 2
      modifies this
      ensures chosenGenres == old(chosenGenres) + [selectedGenre]
      ensures chosenRatings == old(chosenRatings) + [selectedRating]
      ensures view == Update(prepared, selectedGenre, selectedRating, yearInterval[0], yearInterval[1])
    {
      chosenGenres := chosenGenres + [selectedGenre];
      chosenRatings := chosenRatings + [selectedRating];
      var genres := chosenGenres[|chosenGenres| - 1];
      var ratings := chosenRatings[|chosenRatings| - 1];
      view := Update(prepared, genres, ratings, yearInterval[0], yearInterval[1]);
    }
  }
}
