/**
 * The CSV import of patient records: one `User` per data line, with the
 * HEIFA scores for the user's sex looked up by column name in the header.
 *
 * The asset file is given as its lines (header first); `toDoubleOrNull` is
 * the parameter `parse`. Android's `Toast.makeText` throws on a thread
 * without a message loop, which is the case when the import runs during
 * database seeding: `toastThrows` says whether the `Toast` calls in the
 * `catch` blocks throw, in which case the caught exception is followed by
 * one that escapes.
 */
module CsvParser {
  import opened Wrappers
  import opened KText

  /** The total score and the per-category scores of one user. */
  datatype FoodCategoryHEIFAScore = FoodCategoryHEIFAScore(totalScore: real, foodCategoryScoreMap: map<string, real>)

  /** One data line of the CSV file. */
  datatype User = User(userID: string, phoneNum: string, gender: string, foodCategoryHEIFAScore: FoodCategoryHEIFAScore)

  /** A resolved score column: the category and its header position. */
  datatype Column = Column(food: string, index: nat)

  /** The twelve food categories, in lookup order. */
  const Categories: seq<string> := [
    "Discretionary", "Vegetables", "Fruit",
    "Grainsandcereals", "Wholegrains", "Meatandalternatives",
    "Sodium", "Alcohol", "Water", "Sugar",
    "SaturatedFat", "UnsaturatedFat"
  ]

  /** `gender.lowercase()` mapped to "Male" or "Female"; `None` where the source throws. */
  function NormaliseGender(gender: string): (r: Option<string>)
    ensures r.Some? ==> r.value == "Male" || r.value == "Female"
  {
    var g := LowerAscii(gender);
    if g == "male" || g == "m" then Some("Male")
    else if g == "female" || g == "f" then Some("Female")
    else None
  }

  /**
   * Normalisation ignores case: "male" and "m" give "Male", "female" and
   * "f" give "Female", and every other value is rejected.
   */
  lemma NormaliseGenderCases(gender: string)
    ensures NormaliseGender(gender) == Some("Male") <==> LowerAscii(gender) in {"male", "m"}
    ensures NormaliseGender(gender) == Some("Female") <==> LowerAscii(gender) in {"female", "f"}
    ensures NormaliseGender(gender).None? <==> LowerAscii(gender) !in {"male", "m", "female", "f"}
  {
  }

  /** The header cells, split on commas and trimmed. */
  function HeaderCells(header: string): seq<string> {
    TrimAll(Split(header, ","))
  }

  /** Header position of the score column of `food` for `gender`, or -1. */
  function ColumnOf(cells: seq<string>, food: string, gender: string): int {
    IndexOfFirst(cells, food + "HEIFAscore" + gender)
  }

  /** Header position of the total-score column for `gender`, or -1. */
  function TotalColumnOf(cells: seq<string>, gender: string): int {
    IndexOfFirst(cells, "HEIFAtotalscore" + gender)
  }

  /** The categories of `foods`, in order, whose column is present, each with its position. */
  function ResolveColumns(foods: seq<string>, cells: seq<string>, gender: string): (r: seq<Column>)
    ensures forall c :: c in r ==> c.food in foods && c.index == ColumnOf(cells, c.food, gender)
    ensures forall f :: f in foods && ColumnOf(cells, f, gender) >= 0 ==> Column(f, ColumnOf(cells, f, gender) as nat) in r
  {
    if |foods| == 0 then []
    else
      var food := foods[|foods| - 1];
      var idx := ColumnOf(cells, food, gender);
      var front := ResolveColumns(foods[..|foods| - 1], cells, gender);
      assert forall f :: f in foods ==> f in foods[..|foods| - 1] || f == food;
      if idx != -1 then front + [Column(food, idx)] else front
  }

  /** Map update with a parsed value; an unparsed cell leaves the map as it is. */
  function Store(m: map<string, real>, key: string, v: Option<real>): map<string, real> {
    if v.Some? then m[key := v.value] else m
  }

  /**
   * The score map built from `acc` by reading the columns in order; the
   * reading stops at the first column past the end of the row (the index
   * error is caught).
   */
  function Fill(cols: seq<Column>, row: seq<string>, parse: string -> Option<real>, acc: map<string, real>): map<string, real>
    decreases |cols|
  {
    if |cols| == 0 || cols[0].index >= |row| then acc
    else Fill(cols[1..], row, parse, Store(acc, cols[0].food, parse(row[cols[0].index])))
  }

  predicate AllInRange(cols: seq<Column>, row: seq<string>) {
    forall k :: 0 <= k < |cols| ==> cols[k].index < |row|
  }

  /** What a caught exception leaves: `v`, or an escaping exception when `Toast` throws. */
  function Caught<T>(v: T, toastThrows: bool): Outcome<T> {
    if toastThrows then Thrown else Returned(v)
  }

  /**
   * The outcome of `retrieveUserAllHEIFAScoresByGender`: `header` is the
   * first line of the file (`None` for an empty file), `row` the data line's
   * fields.
   */
  function ScoresOf(gender: string, header: Option<string>, row: seq<string>, parse: string -> Option<real>, toastThrows: bool): Outcome<FoodCategoryHEIFAScore> {
    match NormaliseGender(gender)
    case None => Thrown
    case Some(g) =>
      if header.None? then Caught(FoodCategoryHEIFAScore(0.0, map[]), toastThrows)
      else ScoresFromHeader(g, HeaderCells(header.value), row, parse, toastThrows)
  }

  /** The outcome once the sex is normalised to `g` and the header cells are known. */
  function ScoresFromHeader(g: string, cells: seq<string>, row: seq<string>, parse: string -> Option<real>, toastThrows: bool): Outcome<FoodCategoryHEIFAScore> {
    var t := TotalColumnOf(cells, g);
    if t < 0 || t >= |row| then Caught(FoodCategoryHEIFAScore(0.0, map[]), toastThrows)
    else ScoresWithTotal(parse(row[t]).GetOr(0.0), ResolveColumns(Categories, cells, g), row, parse, toastThrows)
  }

  /** The outcome once the total is read: the category columns are read in order. */
  function ScoresWithTotal(total: real, cols: seq<Column>, row: seq<string>, parse: string -> Option<real>, toastThrows: bool): Outcome<FoodCategoryHEIFAScore> {
    var scores := FoodCategoryHEIFAScore(total, Fill(cols, row, parse, map[]));
    if AllInRange(cols, row) then Returned(scores) else Caught(scores, toastThrows)
  }

  /** Unfolds `ScoresOf` for an accepted gender; the lemmas below start from it. */
  lemma ScoresOfNormalised(gender: string, header: string, row: seq<string>, parse: string -> Option<real>, toastThrows: bool)
    requires NormaliseGender(gender).Some?
    ensures ScoresOf(gender, Some(header), row, parse, toastThrows)
         == ScoresFromHeader(NormaliseGender(gender).value, HeaderCells(header), row, parse, toastThrows)
  {
  }

  /**
   * The spelling of the sex does not matter: every spelling the
   * normalisation accepts ("m", "MALE", "f", ...) reads exactly the scores
   * the canonical "Male" or "Female" reads, from the same columns.
   */
  lemma SpellingIrrelevant(gender: string, header: Option<string>, row: seq<string>, parse: string -> Option<real>, toastThrows: bool)
    requires NormaliseGender(gender).Some?
    ensures NormaliseGender(NormaliseGender(gender).value) == NormaliseGender(gender)
    ensures ScoresOf(gender, header, row, parse, toastThrows)
         == ScoresOf(NormaliseGender(gender).value, header, row, parse, toastThrows)
  {
    CanonicalGenders();
  }

  /** The canonical spellings normalise to themselves. */
  lemma CanonicalGenders()
    ensures NormaliseGender("Male") == Some("Male") && NormaliseGender("Female") == Some("Female")
  {
    LowerMale();
    LowerFemale();
  }

  lemma LowerMale()
    ensures LowerAscii("Male") == "male"
  {
    var m := LowerAscii("Male");
    assert m[0] == 'm' && m[1] == 'a' && m[2] == 'l' && m[3] == 'e';
  }

  lemma LowerFemale()
    ensures LowerAscii("Female") == "female"
  {
    var f := LowerAscii("Female");
    assert f[0] == 'f' && f[1] == 'e' && f[2] == 'm' && f[3] == 'a' && f[4] == 'l' && f[5] == 'e';
  }

  /** The `foodList.forEach` loop that collects the score columns present in the header. */
  method FindScoreColumns(headerValues: seq<string>, g: string) returns (cols: seq<Column>)
    ensures cols == ResolveColumns(Categories, headerValues, g)
  {
    var foodList := Categories;
    cols := [];
    for i := 0 to |foodList|
      invariant cols == ResolveColumns(foodList[..i], headerValues, g)
    {
      var food := foodList[i];
      var index := ColumnOf(headerValues, food, g);
      if index != -1 {
        cols := cols + [Column(food, index)];
      }
      assert foodList[..i + 1][..i] == foodList[..i];
    }
    assert foodList[..|foodList|] == foodList;
  }

  /**
   * The `csvTitleIndex.forEachIndexed` loop: `complete` is false when a
   * column lies past the end of the row, where the index error ends the loop.
   */
  method ReadScores(cols: seq<Column>, dataRow: seq<string>, parse: string -> Option<real>)
    returns (mapFoodScore: map<string, real>, complete: bool)
    ensures mapFoodScore == Fill(cols, dataRow, parse, map[])
    ensures complete <==> AllInRange(cols, dataRow)
  {
    mapFoodScore := map[];
    var i := 0;
    while i < |cols|
      invariant 0 <= i <= |cols|
      invariant Fill(cols, dataRow, parse, map[]) == Fill(cols[i..], dataRow, parse, mapFoodScore)
      invariant forall k :: 0 <= k < i ==> cols[k].index < |dataRow|
    {
      if cols[i].index >= |dataRow| {
        return mapFoodScore, false;
      }
      assert cols[i..][1..] == cols[i + 1..];
      mapFoodScore := Store(mapFoodScore, cols[i].food, parse(dataRow[cols[i].index]));
      i := i + 1;
    }
    return mapFoodScore, true;
  }

  /** `retrieveUserAllHEIFAScoresByGender`. */
  method RetrieveScores(gender: string, header: Option<string>, dataRow: seq<string>, parse: string -> Option<real>, toastThrows: bool)
    returns (r: Outcome<FoodCategoryHEIFAScore>)
    ensures r == ScoresOf(gender, header, dataRow, parse, toastThrows)
  {
    var validated := NormaliseGender(gender);
    if validated.None? {
      return Thrown;
    }
    var g := validated.value;
    var totalScore: real := 0.0;
    if header.None? {
      return Caught(FoodCategoryHEIFAScore(totalScore, map[]), toastThrows);
    }
    ScoresOfNormalised(gender, header.value, dataRow, parse, toastThrows);
    var headerValues := HeaderCells(header.value);
    var cols := FindScoreColumns(headerValues, g);
    var totalScoreIndex := TotalColumnOf(headerValues, g);
    if totalScoreIndex == -1 || totalScoreIndex >= |dataRow| {
      return Caught(FoodCategoryHEIFAScore(totalScore, map[]), toastThrows);
    }
    var parsedTotal := parse(dataRow[totalScoreIndex]);
    if parsedTotal.Some? {
      totalScore := parsedTotal.value;
    }
    var mapFoodScore, complete := ReadScores(cols, dataRow, parse);
    if !complete {
      return Caught(FoodCategoryHEIFAScore(totalScore, mapFoodScore), toastThrows);
    }
    return Returned(FoodCategoryHEIFAScore(totalScore, mapFoodScore));
  }

  /** Every entry of `m` is a category whose column exists, lies in `row`, and parses to the stored value. */
  predicate ScoresFromColumns(m: map<string, real>, cells: seq<string>, gender: string, row: seq<string>, parse: string -> Option<real>) {
    forall k :: k in m ==>
      && k in Categories
      && 0 <= ColumnOf(cells, k, gender) < |row|
      && parse(row[ColumnOf(cells, k, gender)]) == Some(m[k])
  }

  lemma {:induction false} FillFromColumns(cols: seq<Column>, row: seq<string>, parse: string -> Option<real>, acc: map<string, real>, cells: seq<string>, gender: string)
    requires forall c :: c in cols ==> c.food in Categories && c.index == ColumnOf(cells, c.food, gender)
    requires ScoresFromColumns(acc, cells, gender, row, parse)
    ensures ScoresFromColumns(Fill(cols, row, parse, acc), cells, gender, row, parse)
    decreases |cols|
  {
    if |cols| > 0 && cols[0].index < |row| {
      var c := cols[0];
      assert c in cols;
      FillFromColumns(cols[1..], row, parse, Store(acc, c.food, parse(row[c.index])), cells, gender);
    }
  }

  /**
   * The score map only holds the twelve categories, each with the parsed
   * value of its own column: a cell that does not parse is left out rather
   * than stored as 0.
   */
  lemma ScoresAreParsedColumns(gender: string, header: string, row: seq<string>, parse: string -> Option<real>, toastThrows: bool)
    requires ScoresOf(gender, Some(header), row, parse, toastThrows).Returned?
    ensures var r := ScoresOf(gender, Some(header), row, parse, toastThrows).value;
      && r.foodCategoryScoreMap.Keys <= set f | f in Categories
      && ScoresFromColumns(r.foodCategoryScoreMap, HeaderCells(header), NormaliseGender(gender).value, row, parse)
  {
    ScoresOfNormalised(gender, header, row, parse, toastThrows);
    var g := NormaliseGender(gender).value;
    var cells := HeaderCells(header);
    var t := TotalColumnOf(cells, g);
    if 0 <= t < |row| {
      var cols := ResolveColumns(Categories, cells, g);
      FillFromColumns(cols, row, parse, map[], cells, g);
    }
  }

  lemma {:induction false} FillKeys(cols: seq<Column>, row: seq<string>, parse: string -> Option<real>, acc: map<string, real>)
    requires AllInRange(cols, row)
    ensures forall k :: k in acc ==> k in Fill(cols, row, parse, acc)
    ensures forall c :: c in cols && parse(row[c.index]).Some? ==> c.food in Fill(cols, row, parse, acc)
    ensures forall k :: k in Fill(cols, row, parse, acc) ==> k in acc || exists c :: c in cols && c.food == k
    decreases |cols|
  {
    if |cols| > 0 {
      var c := cols[0];
      var next := Store(acc, c.food, parse(row[c.index]));
      FillKeys(cols[1..], row, parse, next);
      forall d | d in cols && parse(row[d.index]).Some? ensures d.food in Fill(cols, row, parse, acc) {
        if d != c {
          var k :| 0 <= k < |cols| && cols[k] == d;
          assert cols[1..][k - 1] == d;
        }
      }
      forall k | k in Fill(cols, row, parse, acc) ensures k in acc || exists d :: d in cols && d.food == k {
        if k !in acc && k != c.food {
          var d :| d in cols[1..] && d.food == k;
          assert d in cols;
        }
      }
    }
  }

  lemma FillHasEveryFood(foods: seq<string>, cells: seq<string>, g: string, row: seq<string>, parse: string -> Option<real>)
    requires forall f :: f in foods ==> 0 <= ColumnOf(cells, f, g) < |row| && parse(row[ColumnOf(cells, f, g)]).Some?
    ensures var cols := ResolveColumns(foods, cells, g);
      AllInRange(cols, row) && Fill(cols, row, parse, map[]).Keys == set f | f in foods
  {
    var cols := ResolveColumns(foods, cells, g);
    assert AllInRange(cols, row) by {
      forall k | 0 <= k < |cols| ensures cols[k].index < |row| {
        assert cols[k] in cols;
      }
    }
    FillKeys(cols, row, parse, map[]);
    var m := Fill(cols, row, parse, map[]);
    forall f | f in foods ensures f in m {
      assert Column(f, ColumnOf(cells, f, g) as nat) in cols;
    }
  }

  /**
   * When every category column exists and every score cell parses, the map
   * holds all twelve categories, which is what the seeding needs.
   */
  lemma CompleteRowGivesAllCategories(gender: string, header: string, row: seq<string>, parse: string -> Option<real>, toastThrows: bool)
    requires NormaliseGender(gender).Some?
    requires var cells := HeaderCells(header); var g := NormaliseGender(gender).value;
      && 0 <= TotalColumnOf(cells, g) < |row|
      && forall f :: f in Categories ==> 0 <= ColumnOf(cells, f, g) < |row| && parse(row[ColumnOf(cells, f, g)]).Some?
    ensures var r := ScoresOf(gender, Some(header), row, parse, toastThrows);
      r.Returned? && r.value.foodCategoryScoreMap.Keys == set f | f in Categories
  {
    ScoresOfNormalised(gender, header, row, parse, toastThrows);
    var g := NormaliseGender(gender).value;
    var cells := HeaderCells(header);
    FillHasEveryFood(Categories, cells, g, row, parse);
  }

  /** A missing total column is caught: total 0.0 and an empty map (unless `Toast` throws). */
  lemma MissingTotalColumnGivesZero(gender: string, header: string, row: seq<string>, parse: string -> Option<real>)
    requires NormaliseGender(gender).Some?
    requires TotalColumnOf(HeaderCells(header), NormaliseGender(gender).value) == -1
    ensures ScoresOf(gender, Some(header), row, parse, false) == Returned(FoodCategoryHEIFAScore(0.0, map[]))
    ensures ScoresOf(gender, Some(header), row, parse, true) == Thrown
  {
    ScoresOfNormalised(gender, header, row, parse, false);
    ScoresOfNormalised(gender, header, row, parse, true);
  }

  /**
   * The total is the parsed total cell, or the initial 0.0 when that cell
   * does not parse, the column is missing or the row is too short.
   */
  lemma TotalIsParsedOrZero(gender: string, header: string, row: seq<string>, parse: string -> Option<real>, toastThrows: bool)
    requires NormaliseGender(gender).Some? && ScoresOf(gender, Some(header), row, parse, toastThrows).Returned?
    ensures var t := TotalColumnOf(HeaderCells(header), NormaliseGender(gender).value);
      ScoresOf(gender, Some(header), row, parse, toastThrows).value.totalScore == if 0 <= t < |row| then parse(row[t]).GetOr(0.0) else 0.0
  {
    var g := NormaliseGender(gender).value;
    var cells := HeaderCells(header);
    ScoresOfNormalised(gender, header, row, parse, toastThrows);
    var r := ScoresFromHeader(g, cells, row, parse, toastThrows);
    var t := TotalColumnOf(cells, g);
    assert r.value.totalScore == if 0 <= t < |row| then parse(row[t]).GetOr(0.0) else 0.0;
  }

  // ------------------------------------------------------------ all users

  /** The `User` of one data line, or `None` where the line makes the import throw. */
  function UserOfLine(header: string, line: string, parse: string -> Option<real>, toastThrows: bool): Option<User> {
    var values := Split(line, ",");
    if |values| < 3 then None
    else
      var gender := Trim(values[2]);
      if gender != "Male" && gender != "Female" then None
      else
        match ScoresOf(gender, Some(header), values, parse, toastThrows)
        case Thrown => None
        case Returned(scores) => Some(User(Trim(values[1]), Trim(values[0]), gender, scores))
  }

  /**
   * A data line yields a user exactly when it has at least three fields, its
   * trimmed field 2 is "Male" or "Female" and the score lookup returns; the
   * user's phone, id and sex are the trimmed fields 0, 1 and 2.
   */
  lemma UserOfLineFields(header: string, line: string, parse: string -> Option<real>, toastThrows: bool)
    ensures var r := UserOfLine(header, line, parse, toastThrows); var values := Split(line, ",");
      && (r.Some? <==> |values| >= 3 && Trim(values[2]) in {"Male", "Female"}
                       && ScoresOf(Trim(values[2]), Some(header), values, parse, toastThrows).Returned?)
      && (r.Some? ==>
            && r.value.phoneNum == Trim(values[0])
            && r.value.userID == Trim(values[1])
            && r.value.gender == Trim(values[2])
            && Returned(r.value.foodCategoryHEIFAScore) == ScoresOf(r.value.gender, Some(header), values, parse, toastThrows))
  {
  }

  /** `UserOfLine` for the lines of a file with the given header. */
  function LineReader(header: string, parse: string -> Option<real>, toastThrows: bool): string -> Option<User> {
    line => UserOfLine(header, line, parse, toastThrows)
  }

  /**
   * Applying the line reader is reading the line: the import loop's
   * invariant, `UserAt` and `UsersFollowFileOrder` use it to pass between
   * the lambda and `UserOfLine`.
   */
  lemma LineReaderIsUserOfLine(header: string, line: string, parse: string -> Option<real>, toastThrows: bool)
    ensures LineReader(header, parse, toastThrows)(line) == UserOfLine(header, line, parse, toastThrows)
  {
  }

  /**
   * The values of `lines` under `conv` appended to `acc`; the first line
   * without a value ends the loop through the caught exception.
   */
  function Collect<T>(conv: string -> Option<T>, lines: seq<string>, toastThrows: bool, acc: seq<T>): Outcome<seq<T>>
    decreases |lines|
  {
    if |lines| == 0 then Returned(acc)
    else match conv(lines[0])
      case None => Caught(acc, toastThrows)
      case Some(u) => Collect(conv, lines[1..], toastThrows, acc + [u])
  }

  /** The outcome of `getAllUserDataFromCSV` on a file given by its lines. */
  function AllUsersOf(lines: seq<string>, parse: string -> Option<real>, toastThrows: bool): Outcome<seq<User>> {
    if |lines| == 0 then Returned([]) else Collect(LineReader(lines[0], parse, toastThrows), lines[1..], toastThrows, [])
  }

  /** `getAllUserDataFromCSV`: one user per data line, in file order. */
  method GetAllUserData(lines: seq<string>, parse: string -> Option<real>, toastThrows: bool) returns (r: Outcome<seq<User>>)
    ensures r == AllUsersOf(lines, parse, toastThrows)
  {
    var entities: seq<User> := [];
    if |lines| == 0 {
      return Returned(entities);
    }
    var header := lines[0];
    var i := 1;
    while i < |lines|
      invariant 1 <= i <= |lines|
      invariant AllUsersOf(lines, parse, toastThrows) == Collect(LineReader(header, parse, toastThrows), lines[i..], toastThrows, entities)
    {
      var user := ReadUser(header, lines[i], parse, toastThrows);
      LineReaderIsUserOfLine(header, lines[i], parse, toastThrows);
      if user.None? {
        return Caught(entities, toastThrows);
      }
      assert lines[i..][1..] == lines[i + 1..];
      entities := entities + [user.value];
      i := i + 1;
    }
    return Returned(entities);
  }

  /** The body of the import loop for one data line; `None` where it throws. */
  method ReadUser(header: string, line: string, parse: string -> Option<real>, toastThrows: bool) returns (user: Option<User>)
    ensures user == UserOfLine(header, line, parse, toastThrows)
  {
    var values := Split(line, ",");
    if |values| < 3 {
      return None;
    }
    var id := Trim(values[1]);
    var phoneNum := Trim(values[0]);
    var gender := Trim(values[2]);
    var foodScoreGender: Option<FoodCategoryHEIFAScore> := None;
    if gender == "Male" || gender == "Female" {
      var scores := RetrieveScores(gender, Some(header), values, parse, toastThrows);
      if scores.Thrown? {
        return None;
      }
      foodScoreGender := Some(scores.value);
    }
    if foodScoreGender.None? {
      return None;
    }
    return Some(User(id, phoneNum, gender, foodScoreGender.value));
  }

  lemma {:induction false} CollectBounds<T>(conv: string -> Option<T>, lines: seq<string>, toastThrows: bool, acc: seq<T>)
    requires Collect(conv, lines, toastThrows, acc).Returned?
    ensures var out := Collect(conv, lines, toastThrows, acc).value;
      && |acc| <= |out| <= |acc| + |lines|
      && out[..|acc|] == acc
      && (|out| < |acc| + |lines| ==> !toastThrows && conv(lines[|out| - |acc|]).None?)
    decreases |lines|
  {
    if |lines| > 0 && conv(lines[0]).Some? {
      var u := conv(lines[0]).value;
      CollectBounds(conv, lines[1..], toastThrows, acc + [u]);
      var out := Collect(conv, lines, toastThrows, acc).value;
      assert out[..|acc| + 1][..|acc|] == out[..|acc|];
      if |out| < |acc| + |lines| {
        assert lines[1..][|out| - (|acc| + 1)] == lines[|out| - |acc|];
      }
    }
  }

  lemma {:induction false} CollectAt<T>(conv: string -> Option<T>, lines: seq<string>, toastThrows: bool, acc: seq<T>, k: int)
    requires Collect(conv, lines, toastThrows, acc).Returned?
    requires |acc| <= k < |Collect(conv, lines, toastThrows, acc).value|
    ensures k - |acc| < |lines| && conv(lines[k - |acc|]) == Some(Collect(conv, lines, toastThrows, acc).value[k])
    decreases |lines|
  {
    CollectBounds(conv, lines, toastThrows, acc);
    var u := conv(lines[0]).value;
    if k > |acc| {
      CollectAt(conv, lines[1..], toastThrows, acc + [u], k);
      assert lines[1..][k - (|acc| + 1)] == lines[k - |acc|];
    } else {
      CollectBounds(conv, lines[1..], toastThrows, acc + [u]);
      var out := Collect(conv, lines, toastThrows, acc).value;
      assert out[..|acc| + 1][|acc|] == u;
    }
  }

  lemma UserAt(header: string, rows: seq<string>, parse: string -> Option<real>, toastThrows: bool, users: seq<User>, k: nat)
    requires Collect(LineReader(header, parse, toastThrows), rows, toastThrows, []) == Returned(users)
    requires k < |users|
    ensures k < |rows| && UserOfLine(header, rows[k], parse, toastThrows) == Some(users[k])
  {
    CollectAt(LineReader(header, parse, toastThrows), rows, toastThrows, [], k);
    LineReaderIsUserOfLine(header, rows[k], parse, toastThrows);
  }

  /**
   * The imported users are the data lines in file order (field 0 is the
   * phone, field 1 the id, field 2 the sex, each trimmed); the import stops
   * at the first line that is short, has a sex other than "Male"/"Female",
   * or whose score lookup throws, keeping the users read before it. When
   * `Toast` throws, any such line makes the import throw instead.
   */
  lemma UsersFollowFileOrder(header: string, rows: seq<string>, parse: string -> Option<real>, toastThrows: bool)
    requires AllUsersOf([header] + rows, parse, toastThrows).Returned?
    ensures var users := AllUsersOf([header] + rows, parse, toastThrows).value;
      && |users| <= |rows|
      && (forall k :: 0 <= k < |users| ==> UserOfLine(header, rows[k], parse, toastThrows) == Some(users[k]))
      && (|users| < |rows| ==> !toastThrows && UserOfLine(header, rows[|users|], parse, toastThrows).None?)
  {
    assert ([header] + rows)[1..] == rows;
    var conv := LineReader(header, parse, toastThrows);
    var users := AllUsersOf([header] + rows, parse, toastThrows).value;
    CollectBounds(conv, rows, toastThrows, []);
    forall k | 0 <= k < |users| ensures UserOfLine(header, rows[k], parse, toastThrows) == Some(users[k]) {
      UserAt(header, rows, parse, toastThrows, users, k);
    }
    if |users| < |rows| {
      LineReaderIsUserOfLine(header, rows[|users|], parse, toastThrows);
    }
  }
}
