/**
  The HTTP handler for GET /consumption (handler/consumption_handler.go): four required
  query parameters, two dates in the layout "2006-01-02", a start not after the end, a
  comma-separated list of meter ids parsed with Atoi, then the pipeline. Validation
  failures and a pipeline error answer 400 with a message; success answers 200.
*/
module ConsumptionHandler {
  import opened Wrappers
  import opened Decimal
  import opened Civil
  import opened ConsumptionService

  const StatusOK: int := 200
  const StatusBadRequest: int := 400

  const ParamsRequired: string := "Todos los par\U{00E1}metros son requeridos"
  const BadStartDate: string := "Formato inv\U{00E1}lido de start_date, debe ser YYYY-MM-DD"
  const BadEndDate: string := "Formato inv\U{00E1}lido de end_date, debe ser YYYY-MM-DD"
  const StartAfterEnd: string := "start_date no puede ser mayor que end_date"
  const BadMeterIds: string := "Formato inv\U{00E1}lido de meter_ids"

  /** The JSON body: {"error": ...} or the pipeline's result map. */
  datatype Body = ErrorBody(error: string) | ResultBody(result: Response)

  datatype Reply = Reply(status: int, body: Body)

  /** What the handler passes on to the pipeline once the request is valid. */
  datatype Request = Request(meterIds: seq<int>, startDate: string, endDate: string, kindPeriod: string)

  /** echo's QueryParam: the parameter's value, or "" when it is absent. */
  function QueryParam(query: map<string, string>, name: string): (v: string)
    ensures name !in query ==> v == ""
    ensures name in query ==> v == query[name]
  {
    if name in query then query[name] else ""
  }

  // ---------------------------------------------------------------- dates

  /** The value of the two digits at s[i], s[i + 1]. */
  function TwoDigits(s: string, i: nat): nat
    requires i + 1 < |s| && IsDigit(s[i]) && IsDigit(s[i + 1])
  {
    10 * DigitValue(s[i]) + DigitValue(s[i + 1])
  }

  /** The shape of the layout "2006-01-02": four digits, '-', two digits, '-', two digits. */
  predicate DateShaped(s: string)
  {
    |s| == 10 && AllDigits(s[..4]) && s[4] == '-' && IsDigit(s[5]) && IsDigit(s[6])
    && s[7] == '-' && IsDigit(s[8]) && IsDigit(s[9])
  }

  /**
    time.Parse("2006-01-02", s): a four-digit year, a two-digit month in 1..12 and a
    two-digit day that exists in that month, with nothing before or after.
  */
  function ParseDate(s: string): (r: Option<CivilDate>)
    ensures r.Some? ==> DateShaped(s)
    ensures r.Some? ==> r.value == Date(DigitsValue(s[..4]), TwoDigits(s, 5), TwoDigits(s, 8))
    ensures DateShaped(s) && IsValid(Date(DigitsValue(s[..4]), TwoDigits(s, 5), TwoDigits(s, 8))) ==> r.Some?
  {
    if !DateShaped(s) then None
    else
      var d := Date(DigitsValue(s[..4]), TwoDigits(s, 5), TwoDigits(s, 8));
      if IsValid(d) then Some(d) else None
  }

  /** The digits of n, zero-padded to width k (n < 10^k). */
  function Padded(n: nat, k: nat): (s: string)
    ensures |s| == k && AllDigits(s)
  {
    if k == 0 then "" else Padded(n / 10, k - 1) + [DigitChar(n % 10)]
  }

  function Pow10(k: nat): (p: nat)
    ensures p >= 1
  {
    if k == 0 then 1 else 10 * Pow10(k - 1)
  }

  lemma {:induction false} PaddedValue(n: nat, k: nat)
    requires n < Pow10(k)
    ensures DigitsValue(Padded(n, k)) == n
  {
    if k > 0 {
      PaddedValue(n / 10, k - 1);
      var s := Padded(n, k);
      assert s[..|s| - 1] == Padded(n / 10, k - 1);
    }
  }

  /** A date written in the layout "2006-01-02". */
  function FormatDate(d: CivilDate): (s: string)
    requires 0 <= d.year <= 9999
    ensures |s| == 10
  {
    Padded(d.year, 4) + "-" + Padded(d.month, 2) + "-" + Padded(d.day, 2)
  }

  /** Parsing a formatted date gives the date back, for every four-digit year. */
  lemma ParseFormattedDate(d: CivilDate)
    requires 0 <= d.year <= 9999
    ensures ParseDate(FormatDate(d)) == Some(d)
  {
    var s := FormatDate(d);
    var y, m, dd := Padded(d.year, 4), Padded(d.month, 2), Padded(d.day, 2);
    assert s[..4] == y;
    PaddedValue(d.year, 4);
    PaddedValue(d.month, 2);
    PaddedValue(d.day, 2);
    assert s[5..7] == m && s[8..10] == dd;
    assert m[..1] == [m[0]];
    assert dd[..1] == [dd[0]];
    assert TwoDigits(s, 5) == DigitsValue(m);
    assert TwoDigits(s, 8) == DigitsValue(dd);
  }

  // ---------------------------------------------------------------- meter ids

  /** unicode.IsSpace: the characters strings.TrimSpace removes. */
  predicate IsSpace(c: char)
  {
    c == '\t' || c == '\n' || c == '\U{000B}' || c == '\U{000C}' || c == '\r' || c == ' '
    || c == '\U{0085}' || c == '\U{00A0}' || c == '\U{1680}' || ('\U{2000}' <= c <= '\U{200A}')
    || c == '\U{2028}' || c == '\U{2029}' || c == '\U{202F}' || c == '\U{205F}' || c == '\U{3000}'
  }

  function TrimLeft(s: string): (r: string)
    ensures |r| <= |s| && r == s[|s| - |r|..]
    ensures r == [] || !IsSpace(r[0])
    ensures forall i :: 0 <= i < |s| - |r| ==> IsSpace(s[i])
  {
    if |s| > 0 && IsSpace(s[0]) then
      var r := TrimLeft(s[1..]);
      assert forall i :: 1 <= i < |s| - |r| ==> s[i] == s[1..][i - 1];
      r
    else s
  }

  function TrimRight(s: string): (r: string)
    ensures |r| <= |s| && r == s[..|r|]
    ensures r == [] || !IsSpace(r[|r| - 1])
    ensures forall i :: |r| <= i < |s| ==> IsSpace(s[i])
  {
    if |s| > 0 && IsSpace(s[|s| - 1]) then TrimRight(s[..|s| - 1]) else s
  }

  /** strings.TrimSpace: TrimLeft then TrimRight; the result neither starts nor ends with white space. */
  function TrimSpace(s: string): (r: string)
    ensures r == [] || (!IsSpace(r[0]) && !IsSpace(r[|r| - 1]))
  {
    TrimRight(TrimLeft(s))
  }

  /** r is s[i..j] with only white space before i and after j. */
  predicate CutFrom(s: string, i: nat, j: nat, r: string)
  {
    i <= j <= |s| && r == s[i..j]
    && (forall k :: 0 <= k < i ==> IsSpace(s[k]))
    && (forall k :: j <= k < |s| ==> IsSpace(s[k]))
  }

  /** TrimSpace cuts white space, and only white space, off both ends. */
  lemma TrimSpaceCuts(s: string)
    ensures exists i: nat, j: nat :: CutFrom(s, i, j, TrimSpace(s))
  {
    var l := TrimLeft(s);
    var r := TrimRight(l);
    var i: nat := |s| - |l|;
    assert r == s[i..i + |r|] by {
      assert l == s[i..];
      assert r == l[..|r|];
    }
    assert forall k :: 0 <= k < i ==> IsSpace(s[k]);
    assert forall k :: i + |r| <= k < |s| ==> IsSpace(s[k]) by {
      forall k | i + |r| <= k < |s|
        ensures IsSpace(s[k])
      {
        assert s[k] == l[k - i];
      }
    }
    assert TrimSpace(s) == r;
    assert CutFrom(s, i, i + |r|, TrimSpace(s));
  }

  /** A string with no white space at either end is left as it is. */
  lemma TrimSpaceUnpadded(s: string)
    requires s == [] || (!IsSpace(s[0]) && !IsSpace(s[|s| - 1]))
    ensures TrimSpace(s) == s
  {
  }

  /** strings.Split(s, ","): the pieces between commas; n commas make n + 1 pieces. */
  function Split(s: string): (r: seq<string>)
    ensures |r| >= 1
    ensures forall i :: 0 <= i < |r| ==> ',' !in r[i]
  {
    if s == [] then [""]
    else if s[0] == ',' then [""] + Split(s[1..])
    else
      var rest := Split(s[1..]);
      [[s[0]] + rest[0]] + rest[1..]
  }

  lemma {:induction false} SplitOfPlain(s: string)
    requires ',' !in s
    ensures Split(s) == [s]
  {
    if s != [] {
      SplitOfPlain(s[1..]);
      assert [s[0]] + s[1..] == s;
    }
  }

  lemma {:induction false} SplitAtComma(a: string, b: string)
    ensures Split(a + [','] + b) == Split(a) + Split(b)
  {
    if a == [] {
      assert a + [','] + b == [','] + b;
      assert ([','] + b)[1..] == b;
    } else {
      assert (a + [','] + b)[0] == a[0];
      assert (a + [','] + b)[1..] == a[1..] + [','] + b;
      SplitAtComma(a[1..], b);
    }
  }

  /** The pieces joined with commas: the inverse of Split for comma-free pieces. */
  function Join(pieces: seq<string>): string
    requires |pieces| >= 1
  {
    if |pieces| == 1 then pieces[0] else pieces[0] + [','] + Join(pieces[1..])
  }

  lemma {:induction false} SplitJoin(pieces: seq<string>)
    requires |pieces| >= 1
    requires forall i :: 0 <= i < |pieces| ==> ',' !in pieces[i]
    ensures Split(Join(pieces)) == pieces
  {
    SplitOfPlain(pieces[0]);
    if |pieces| > 1 {
      SplitJoin(pieces[1..]);
      SplitAtComma(pieces[0], Join(pieces[1..]));
      assert [pieces[0]] + pieces[1..] == pieces;
    }
  }

  /** One piece of the list: white space trimmed, then Atoi. */
  function PieceId(piece: string): Option<int>
  {
    Atoi(TrimSpace(piece))
  }

  /** Every piece run through parse, in order; None once any piece fails. */
  function ParseEach(pieces: seq<string>, parse: string -> Option<int>): (r: Option<seq<int>>)
    ensures r.Some? ==> |r.value| == |pieces|
  {
    if pieces == [] then Some([])
    else
      match ParseEach(pieces[..|pieces| - 1], parse)
      case None => None
      case Some(ids) =>
        match parse(pieces[|pieces| - 1])
        case None => None
        case Some(id) => Some(ids + [id])
  }

  /** The id list the handler derives from the "meters_ids" value. */
  function MeterIdsOf(meterIdsStr: string): Option<seq<int>>
  {
    ParseEach(Split(meterIdsStr), PieceId)
  }

  /**
    The ids keep the pieces' order and multiplicity: the parse succeeds exactly when
    every piece parses, and then id i is piece i's value.
  */
  lemma {:induction false} ParseEachMeaning(pieces: seq<string>, parse: string -> Option<int>)
    ensures ParseEach(pieces, parse).Some? <==> forall i :: 0 <= i < |pieces| ==> parse(pieces[i]).Some?
    ensures ParseEach(pieces, parse).Some? ==>
      forall i :: 0 <= i < |pieces| ==> ParseEach(pieces, parse).value[i] == parse(pieces[i]).value
  {
    if pieces != [] {
      var init, last := pieces[..|pieces| - 1], pieces[|pieces| - 1];
      ParseEachMeaning(init, parse);
      assert forall i :: 0 <= i < |init| ==> init[i] == pieces[i];
    }
  }

  /** The loop over the comma-separated pieces; it stops at the first bad piece. */
  method ParseMeterIds(meterIdsStr: string) returns (meterIds: Option<seq<int>>)
    ensures meterIds == MeterIdsOf(meterIdsStr)
  {
    var meterIdsList := Split(meterIdsStr);
    var ids: seq<int> := [];
    for i := 0 to |meterIdsList|
      invariant ParseEach(meterIdsList[..i], PieceId) == Some(ids)
    {
      var id := Atoi(TrimSpace(meterIdsList[i]));
      ParseEachPrefix(meterIdsList, i, PieceId, ids);
      if id.None? {
        NoneStaysNone(meterIdsList, i + 1);
        return None;
      }
      ids := ids + [id.value];
    }
    assert meterIdsList[..|meterIdsList|] == meterIdsList;
    return Some(ids);
  }

  /** One more piece either fails the parse or appends its value. */
  lemma ParseEachPrefix(pieces: seq<string>, i: nat, parse: string -> Option<int>, ids: seq<int>)
    requires i < |pieces| && ParseEach(pieces[..i], parse) == Some(ids)
    ensures parse(pieces[i]).None? ==> ParseEach(pieces[..i + 1], parse).None?
    ensures parse(pieces[i]).Some? ==> ParseEach(pieces[..i + 1], parse) == Some(ids + [parse(pieces[i]).value])
  {
    assert pieces[..i + 1][..i] == pieces[..i];
  }

  /** A failed prefix fails the whole list. */
  lemma {:induction false} NoneStaysNone(pieces: seq<string>, n: nat)
    requires n <= |pieces| && ParseEach(pieces[..n], PieceId).None?
    ensures ParseEach(pieces, PieceId).None?
    decreases |pieces| - n
  {
    if n < |pieces| {
      assert pieces[..n + 1][..n] == pieces[..n];
      NoneStaysNone(pieces, n + 1);
    } else {
      assert pieces[..n] == pieces;
    }
  }

  /** The string a client sends for an id list: the ids in decimal, joined with commas. */
  function IdsString(ids: seq<int>): string
    requires |ids| >= 1
  {
    Join(seq(|ids|, i requires 0 <= i < |ids| => IntToString(ids[i])))
  }

  lemma IntToStringShape(i: int)
    ensures ',' !in IntToString(i)
    ensures |IntToString(i)| >= 1
    ensures !IsSpace(IntToString(i)[0]) && !IsSpace(IntToString(i)[|IntToString(i)| - 1])
  {
    var d := NatToString(if i < 0 then -i else i);
    assert AllDigits(d);
    assert ',' !in d;
  }

  /** Any non-empty list of int64 ids, written as decimals joined by commas, parses back to itself. */
  lemma MeterIdsRoundTrip(ids: seq<int>)
    requires |ids| >= 1
    requires forall i :: 0 <= i < |ids| ==> MinInt64 <= ids[i] <= MaxInt64
    ensures MeterIdsOf(IdsString(ids)) == Some(ids)
  {
    var pieces := seq(|ids|, i requires 0 <= i < |ids| => IntToString(ids[i]));
    forall i | 0 <= i < |ids|
      ensures ',' !in pieces[i]
      ensures PieceId(pieces[i]) == Some(ids[i])
    {
      IntToStringShape(ids[i]);
      TrimSpaceUnpadded(pieces[i]);
      AtoiOfIntToString(ids[i]);
    }
    assert IdsString(ids) == Join(pieces);
    SplitJoin(pieces);
    ParseEachMeaning(pieces, PieceId);
    var r := ParseEach(pieces, PieceId);
    assert r.Some?;
    assert forall i :: 0 <= i < |ids| ==> r.value[i] == ids[i];
    assert r.value == ids;
  }

  // ---------------------------------------------------------------- the handler

  /** The validation sequence of GetConsumption, in the order the handler applies it. */
  function Validate(query: map<string, string>): Result<Request, string>
  {
    var meterIdsStr := QueryParam(query, "meters_ids");
    var startDate := QueryParam(query, "start_date");
    var endDate := QueryParam(query, "end_date");
    var kindPeriod := QueryParam(query, "kind_period");
    if meterIdsStr == "" || startDate == "" || endDate == "" || kindPeriod == "" then Err(ParamsRequired)
    else if ParseDate(startDate).None? then Err(BadStartDate)
    else if ParseDate(endDate).None? then Err(BadEndDate)
    else if Before(ParseDate(endDate).value, ParseDate(startDate).value) then Err(StartAfterEnd)
    else if MeterIdsOf(meterIdsStr).None? then Err(BadMeterIds)
    else Ok(Request(MeterIdsOf(meterIdsStr).value, startDate, endDate, kindPeriod))
  }

  /**
    GetConsumption. The reply is 400 with the validation message when the request is
    invalid, 400 with the pipeline's error when the period kind is unknown, and otherwise
    200 with the pipeline's response for the parsed ids and the original date strings.
  */
  method GetConsumption(query: map<string, string>, repository: Repository, addressService: AddressLookup)
    returns (reply: Reply, ghost completion: seq<nat>, ghost orders: seq<seq<string>>)
    ensures Validate(query).Err? ==> reply == Reply(StatusBadRequest, ErrorBody(Validate(query).error))
    ensures Validate(query).Ok? && StrategyFor(Validate(query).value.kindPeriod).None? ==>
      reply == Reply(StatusBadRequest, ErrorBody(InvalidKindPrefix + Validate(query).value.kindPeriod))
    ensures Validate(query).Ok? && StrategyFor(Validate(query).value.kindPeriod).Some? ==>
      var r := Validate(query).value;
      var strategy := StrategyFor(r.kindPeriod).value;
      IsCompletionOrder(completion, |r.meterIds|) &&
      OrdersFit(r.meterIds, completion, orders, r.startDate, r.endDate, strategy, repository, addressService) &&
      reply == Reply(StatusOK, ResultBody(Merged(Outcomes(r.meterIds, completion, orders, r.startDate, r.endDate,
                                                          strategy, repository, addressService))))
  {
    completion, orders := [], [];
    var meterIdsStr := QueryParam(query, "meters_ids");
    var startDate := QueryParam(query, "start_date");
    var endDate := QueryParam(query, "end_date");
    var kindPeriod := QueryParam(query, "kind_period");
    if meterIdsStr == "" || startDate == "" || endDate == "" || kindPeriod == "" {
      return Reply(StatusBadRequest, ErrorBody(ParamsRequired)), completion, orders;
    }
    var start := ParseDate(startDate);
    if start.None? {
      return Reply(StatusBadRequest, ErrorBody(BadStartDate)), completion, orders;
    }
    var end := ParseDate(endDate);
    if end.None? {
      return Reply(StatusBadRequest, ErrorBody(BadEndDate)), completion, orders;
    }
    if Before(end.value, start.value) {
      return Reply(StatusBadRequest, ErrorBody(StartAfterEnd)), completion, orders;
    }
    var meterIds := ParseMeterIds(meterIdsStr);
    if meterIds.None? {
      return Reply(StatusBadRequest, ErrorBody(BadMeterIds)), completion, orders;
    }
    var results, err;
    results, err, completion, orders :=
      GetConsumptionByPeriod(meterIds.value, startDate, endDate, kindPeriod, repository, addressService);
    if err.Some? {
      return Reply(StatusBadRequest, ErrorBody(err.value)), completion, orders;
    }
    reply := Reply(StatusOK, ResultBody(results.value));
  }

  // ---------------------------------------------------------------- validation properties

  /** Any empty or missing parameter is rejected first, with the same message. */
  lemma MissingParameterRejected(query: map<string, string>)
    requires QueryParam(query, "meters_ids") == "" || QueryParam(query, "start_date") == ""
          || QueryParam(query, "end_date") == "" || QueryParam(query, "kind_period") == ""
    ensures Validate(query) == Err(ParamsRequired)
  {
  }

  /** The ids are read from "meters_ids": a request that names them "meter_ids" is rejected. */
  lemma DocumentedIdKeyRejected(meterIds: string, startDate: string, endDate: string, kindPeriod: string)
    ensures Validate(map["meter_ids" := meterIds, "start_date" := startDate, "end_date" := endDate,
                         "kind_period" := kindPeriod]) == Err(ParamsRequired)
  {
    var q := map["meter_ids" := meterIds, "start_date" := startDate, "end_date" := endDate,
                 "kind_period" := kindPeriod];
    assert "meters_ids" !in q;
  }

  /** With all parameters present, a bad start date is reported before anything else. */
  lemma BadStartReportedFirst(query: map<string, string>)
    requires QueryParam(query, "meters_ids") != "" && QueryParam(query, "start_date") != ""
          && QueryParam(query, "end_date") != "" && QueryParam(query, "kind_period") != ""
    requires ParseDate(QueryParam(query, "start_date")).None?
    ensures Validate(query) == Err(BadStartDate)
  {
  }

  /** A request passes validation exactly when every check passes, and it keeps the date strings as sent. */
  lemma ValidateAccepts(query: map<string, string>)
    ensures Validate(query).Ok? <==>
      QueryParam(query, "meters_ids") != "" && QueryParam(query, "start_date") != ""
      && QueryParam(query, "end_date") != "" && QueryParam(query, "kind_period") != ""
      && ParseDate(QueryParam(query, "start_date")).Some? && ParseDate(QueryParam(query, "end_date")).Some?
      && !Before(ParseDate(QueryParam(query, "end_date")).value, ParseDate(QueryParam(query, "start_date")).value)
      && MeterIdsOf(QueryParam(query, "meters_ids")).Some?
    ensures Validate(query).Ok? ==>
      Validate(query).value == Request(MeterIdsOf(QueryParam(query, "meters_ids")).value,
                                       QueryParam(query, "start_date"), QueryParam(query, "end_date"),
                                       QueryParam(query, "kind_period"))
  {
  }

  /** The date check is strict: a start equal to the end passes; only a later start fails. */
  lemma StartAfterEndOnlyWhenLater(query: map<string, string>)
    requires QueryParam(query, "meters_ids") != "" && QueryParam(query, "kind_period") != ""
    requires ParseDate(QueryParam(query, "start_date")).Some? && ParseDate(QueryParam(query, "end_date")).Some?
    ensures Validate(query) == Err(StartAfterEnd) <==>
      DayNumber(ParseDate(QueryParam(query, "end_date")).value)
        < DayNumber(ParseDate(QueryParam(query, "start_date")).value)
  {
    var s, e := ParseDate(QueryParam(query, "start_date")).value, ParseDate(QueryParam(query, "end_date")).value;
    BeforeIsEarlierDay(e, s);
  }

  /** Concrete: the list "1, 2,1" splits into three pieces, the middle one still spaced. */
  lemma SplitExample()
    ensures Split("1, 2,1") == ["1", " 2", "1"]
  {
    assert "1, 2,1" == "1" + [','] + (" 2" + [','] + "1");
    SplitAtComma("1", " 2" + [','] + "1");
    SplitAtComma(" 2", "1");
    SplitOfPlain("1");
    SplitOfPlain(" 2");
  }

  /** Concrete: a spaced one-digit piece parses to its digit. */
  lemma SpacedPiece()
    ensures PieceId(" 2") == Some(2)
  {
    DigitPiece(2);
    assert [DigitChar(2)] == "2";
    assert TrimLeft(" 2") == "2" by {
      assert " 2"[1..] == "2";
    }
  }

  /** Concrete: pieces are trimmed, and a repeated id is kept in place. */
  lemma IdsExample()
    ensures MeterIdsOf("1, 2,1") == Some([1, 2, 1])
  {
    SplitExample();
    DigitPiece(1);
    assert [DigitChar(1)] == "1";
    SpacedPiece();
    ParseThree(["1", " 2", "1"], PieceId, 1, 2, 1);
  }

  /** Three pieces that each parse give their three values. */
  lemma ParseThree(pieces: seq<string>, parse: string -> Option<int>, a: int, b: int, c: int)
    requires |pieces| == 3
    requires parse(pieces[0]) == Some(a) && parse(pieces[1]) == Some(b) && parse(pieces[2]) == Some(c)
    ensures ParseEach(pieces, parse) == Some([a, b, c])
  {
    ParseEachMeaning(pieces, parse);
    var r := ParseEach(pieces, parse);
    assert r.Some?;
    assert r.value == [a, b, c];
  }

  /** A one-digit piece parses to its digit. */
  lemma DigitPiece(v: nat)
    requires v < 10
    ensures PieceId([DigitChar(v)]) == Some(v)
  {
    assert IntToString(v) == [DigitChar(v)];
    IntToStringShape(v);
    TrimSpaceUnpadded(IntToString(v));
    AtoiOfIntToString(v);
  }

  lemma DateExample()
    ensures ParseDate("2023-06-01") == Some(Date(2023, 6, 1))
  {
    var d := "2023-06-01";
    assert d[..4] == "2023";
    assert AllDigits("2023");
    assert DateShaped(d);
    assert DigitsValue("2023") == 2023 by {
      assert "2023"[..3] == "202" && "202"[..2] == "20" && "20"[..1] == "2" && "2"[..0] == "";
    }
    assert TwoDigits(d, 5) == 6 && TwoDigits(d, 8) == 1;
  }

  /** Concrete: a one-day range with a spaced list that repeats an id passes as sent. */
  lemma SameDayAccepted()
    ensures Validate(map["meters_ids" := "1, 2,1", "start_date" := "2023-06-01", "end_date" := "2023-06-01",
                         "kind_period" := "daily"])
      == Ok(Request([1, 2, 1], "2023-06-01", "2023-06-01", "daily"))
  {
    IdsExample();
    DateExample();
  }

  /** Concrete: a day that does not exist is a bad date, as is a one-digit month. */
  lemma BadDatesRejected()
    ensures ParseDate("2023-02-29") == None
    ensures ParseDate("2023-6-01") == None
    ensures ParseDate("2024-02-29").Some?
  {
    assert "2023"[..3] == "202" && "202"[..2] == "20" && "20"[..1] == "2" && "2"[..0] == "";
    assert "2024"[..3] == "202";
    assert "2023-02-29"[..4] == "2023";
    assert "2024-02-29"[..4] == "2024";
  }
}
