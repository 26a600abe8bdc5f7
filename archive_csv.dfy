/**
 * The line-scan lookups over the patient CSV file. The file is given as its
 * lines, header first, each already split on commas (`line.split(",")`,
 * `KText.Split`, which always yields at least one field). Each lookup scans
 * the data lines in order; an exception while scanning is caught and the
 * value accumulated so far is returned.
 */
module ArchiveCsv {
  import opened KText

  /** The fields of one line; `split` always yields at least one. */
  type Fields = f: seq<string> | |f| >= 1 witness [""]

  /** The fields of each line of a file (the line split on commas), header first. */
  type Table = seq<Fields>

  /** `lines.drop(1)`: the data lines. */
  function DataLines(lines: Table): (r: Table)
    ensures |lines| > 0 ==> r == lines[1..]
    ensures |lines| == 0 ==> r == []
  {
    if |lines| == 0 then [] else lines[1..]
  }

  /**
   * The first index at or after `from` whose line has fewer than `n`
   * fields (where reading field `n - 1` throws), or `|rows|`.
   */
  function FirstShort(rows: Table, n: nat, from: nat): (r: nat)
    requires from <= |rows|
    ensures from <= r <= |rows|
    ensures forall k :: from <= k < r ==> |rows[k]| >= n
    ensures r < |rows| ==> |rows[r]| < n
    decreases |rows| - from
  {
    if from == |rows| || |rows[from]| < n then from else FirstShort(rows, n, from + 1)
  }

  // ------------------------------------------------------------ phone number

  /** Field 0 of `line`, trimmed, equals the trimmed phone number. */
  predicate PhoneMatches(line: Fields, phoneNum: string) {
    Trim(line[0]) == Trim(phoneNum)
  }

  /**
   * `validatePhoneNumberInput`: true iff some data line's trimmed field 0
   * equals the trimmed input. Every line has a field 0, so nothing throws.
   */
  method ValidatePhoneNumberInput(lines: Table, phoneNum: string) returns (result: bool)
    ensures result <==> exists k :: 0 <= k < |DataLines(lines)| && PhoneMatches(DataLines(lines)[k], phoneNum)
  {
    var rows := DataLines(lines);
    result := false;
    for i := 0 to |rows|
      invariant result <==> exists k :: 0 <= k < i && PhoneMatches(rows[k], phoneNum)
    {
      var values := rows[i];
      if Trim(values[0]) == Trim(phoneNum) {
        result := true;
      }
    }
  }

  // ------------------------------------------------------------ user ids

  /**
   * `getUserIDFromCSV`: the trimmed field 1 of every data line, in file
   * order; a line without a field 1 ends the scan, keeping the ids before it.
   */
  method GetUserIDs(lines: Table) returns (retList: seq<string>)
    ensures var rows := DataLines(lines);
      && |retList| == FirstShort(rows, 2, 0)
      && forall k :: 0 <= k < |retList| ==> retList[k] == Trim(rows[k][1])
  {
    var rows := DataLines(lines);
    retList := [];
    var i := 0;
    while i < |rows|
      invariant 0 <= i <= |rows| && |retList| == i
      invariant forall k :: 0 <= k < i ==> |rows[k]| >= 2 && retList[k] == Trim(rows[k][1])
    {
      var values := rows[i];
      if |values| < 2 {
        assert FirstShort(rows, 2, i) == i;
        FirstShortFrom(rows, 2, i);
        return;
      }
      retList := retList + [Trim(values[1])];
      i := i + 1;
    }
    FirstShortFrom(rows, 2, |rows|);
  }

  /** Where every line before `i` is long enough, the first short line is found from `i` on. */
  lemma {:induction false} FirstShortFrom(rows: Table, n: nat, i: nat)
    requires i <= |rows| && forall k :: 0 <= k < i ==> |rows[k]| >= n
    ensures FirstShort(rows, n, 0) == FirstShort(rows, n, i)
    decreases i
  {
    if i > 0 {
      FirstShortFrom(rows, n, i - 1);
    }
  }

  // ------------------------------------------------------------ id and phone

  /** Trimmed field 1 equals the trimmed id and trimmed field 0 the trimmed phone. */
  predicate IdAndPhoneMatch(line: seq<string>, userID: string, phoneNum: string)
    requires |line| >= 2
  {
    Trim(line[1]) == Trim(userID) && Trim(line[0]) == Trim(phoneNum)
  }

  /**
   * `validateIDAndPhoneNumFromCSV`: true iff a single data line, before the
   * first line without a field 1, matches both the id and the phone.
   */
  method ValidateIDAndPhoneNum(lines: Table, userID: string, phoneNum: string) returns (result: bool)
    ensures var rows := DataLines(lines);
      result <==> exists k :: 0 <= k < FirstShort(rows, 2, 0) && IdAndPhoneMatch(rows[k], userID, phoneNum)
  {
    var rows := DataLines(lines);
    result := false;
    var i := 0;
    while i < |rows|
      invariant 0 <= i <= |rows|
      invariant forall k :: 0 <= k < i ==> |rows[k]| >= 2
      invariant result <==> exists k :: 0 <= k < i && IdAndPhoneMatch(rows[k], userID, phoneNum)
    {
      var values := rows[i];
      if |values| < 2 {
        FirstShortFrom(rows, 2, i);
        return;
      }
      if Trim(values[1]) == Trim(userID) && Trim(values[0]) == Trim(phoneNum) {
        result := true;
      }
      i := i + 1;
    }
    FirstShortFrom(rows, 2, |rows|);
  }

  // ------------------------------------------------------------ sex lookup

  /** Position of the header cell whose trimmed text is "Sex", or -1. */
  function SexColumn(header: seq<string>): int {
    IndexOfFirst(TrimAll(header), "Sex")
  }

  /** Untrimmed field 1 equals the id and untrimmed field 0 the phone. */
  predicate ExactMatch(line: seq<string>, userID: string, userPhNumber: string)
    requires |line| >= 2
  {
    line[1] == userID && line[0] == userPhNumber
  }

  /** Reading this line throws: it has no field 1, or it matches and has no Sex field. */
  predicate GenderLineThrows(line: seq<string>, userID: string, userPhNumber: string, sex: int) {
    |line| < 2 || (ExactMatch(line, userID, userPhNumber) && !(0 <= sex < |line|))
  }

  /** The first data line, from `from` on, whose reading throws, or `|rows|`. */
  function GenderStop(rows: Table, userID: string, userPhNumber: string, sex: int, from: nat): (r: nat)
    requires from <= |rows|
    ensures from <= r <= |rows|
    ensures forall k :: from <= k < r ==> !GenderLineThrows(rows[k], userID, userPhNumber, sex)
    ensures r < |rows| ==> GenderLineThrows(rows[r], userID, userPhNumber, sex)
    decreases |rows| - from
  {
    if from == |rows| || GenderLineThrows(rows[from], userID, userPhNumber, sex) then from
    else GenderStop(rows, userID, userPhNumber, sex, from + 1)
  }

  lemma {:induction false} GenderStopFrom(rows: Table, userID: string, userPhNumber: string, sex: int, i: nat)
    requires i <= |rows| && forall k :: 0 <= k < i ==> !GenderLineThrows(rows[k], userID, userPhNumber, sex)
    ensures GenderStop(rows, userID, userPhNumber, sex, 0) == GenderStop(rows, userID, userPhNumber, sex, i)
    decreases i
  {
    if i > 0 {
      GenderStopFrom(rows, userID, userPhNumber, sex, i - 1);
    }
  }

  /**
   * `retrieveUserGender`: the trimmed Sex field of the last data line, before
   * the first line whose reading throws, whose untrimmed fields 1 and 0 equal
   * the id and phone; "" when no such line exists or the file is empty.
   */
  method RetrieveUserGender(lines: Table, userID: string, userPhNumber: string) returns (retGender: string)
    ensures |lines| == 0 ==> retGender == ""
    ensures |lines| > 0 ==>
      var rows := lines[1..];
      var sex := SexColumn(lines[0]);
      var stop := GenderStop(rows, userID, userPhNumber, sex, 0);
      && ((forall k :: 0 <= k < stop ==> !ExactMatch(rows[k], userID, userPhNumber)) ==> retGender == "")
      && (forall j :: 0 <= j < stop && ExactMatch(rows[j], userID, userPhNumber)
            && (forall k :: j < k < stop ==> !ExactMatch(rows[k], userID, userPhNumber))
            ==> retGender == Trim(rows[j][sex]))
  {
    retGender := "";
    if |lines| == 0 {
      return;
    }
    var headerValues := lines[0];
    var csvTitleIndex := IndexOfFirst(TrimAll(headerValues), "Sex");
    var rows := lines[1..];
    var last := -1;
    var i := 0;
    while i < |rows|
      invariant 0 <= i <= |rows|
      invariant forall k :: 0 <= k < i ==> !GenderLineThrows(rows[k], userID, userPhNumber, csvTitleIndex)
      invariant -1 <= last < i
      invariant last == -1 ==> retGender == "" && forall k :: 0 <= k < i ==> !ExactMatch(rows[k], userID, userPhNumber)
      invariant last >= 0 ==>
        && ExactMatch(rows[last], userID, userPhNumber)
        && retGender == Trim(rows[last][csvTitleIndex])
        && forall k :: last < k < i ==> !ExactMatch(rows[k], userID, userPhNumber)
    {
      var values := rows[i];
      if |values| < 2 {
        GenderStopFrom(rows, userID, userPhNumber, csvTitleIndex, i);
        return;
      }
      if values[1] == userID && values[0] == userPhNumber {
        if !(0 <= csvTitleIndex < |values|) {
          GenderStopFrom(rows, userID, userPhNumber, csvTitleIndex, i);
          return;
        }
        retGender := Trim(values[csvTitleIndex]);
        last := i;
      }
      i := i + 1;
    }
    GenderStopFrom(rows, userID, userPhNumber, csvTitleIndex, |rows|);
  }
}
