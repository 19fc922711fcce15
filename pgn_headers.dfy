/** Turning the header tags and mainline of one game, as the PGN reader hands
    them over, into a `ParsedGame`. */
module PgnHeaders {
  import opened Wrappers
  import Text

  /** One game as stored: player names, the year of play, the event and the
      result when known, the exported PGN text and the SAN of each mainline move. */
  datatype ParsedGame = ParsedGame(
    white: string,
    black: string,
    year: Option<int>,
    event: Option<string>,
    result: Option<string>,
    pgn: string,
    moves: seq<string>)

  /** Tag name to tag value, as the reader found them. */
  type Headers = map<string, string>

  /** One game as the PGN reader yields it: its header tags, the SAN of its
      mainline moves in order, and its PGN text re-exported without comments
      or variations. */
  datatype RawGame = RawGame(headers: Headers, mainline: seq<string>, exported: string)

  const UnknownPlayer := "Unknown"
  const DatePlaceholder := "????.??.??"

  /** `headers.get(tag, "Unknown")`. */
  function PlayerName(headers: Headers, tag: string): (name: string)
    ensures tag in headers ==> name == headers[tag]
    ensures tag !in headers ==> name == UnknownPlayer
  {
    if tag in headers then headers[tag] else UnknownPlayer
  }

  /** `s.split(".")[0]`: the text before the first dot, or all of s. */
  function BeforeFirstDot(s: string): (r: string)
    ensures r <= s
    ensures '.' !in r
    ensures |r| < |s| ==> s[|r|] == '.'
  {
    if s == [] || s[0] == '.' then [] else [s[0]] + BeforeFirstDot(s[1..])
  }

  /** The year of a Date tag value: none for an empty date or the all-`?`
      placeholder, else the number before the first dot, if it is one. */
  function ParseYear(date: string): (year: Option<int>)
    ensures date == "" || date == DatePlaceholder ==> year == None
  {
    if date == "" || date == DatePlaceholder then None
    else Text.ParseInt(BeforeFirstDot(date))
  }

  /** A missing Date tag reads as the empty date. */
  function DateYear(headers: Headers): (year: Option<int>)
    ensures "Date" !in headers ==> year == None
    ensures year.Some? ==> "Date" in headers && year == Text.ParseInt(BeforeFirstDot(headers["Date"]))
    ensures "Date" in headers && headers["Date"] != "" && headers["Date"] != DatePlaceholder ==>
              year == Text.ParseInt(BeforeFirstDot(headers["Date"]))
  {
    ParseYear(if "Date" in headers then headers["Date"] else "")
  }

  /** An Event tag of `?` means no event. */
  function EventName(headers: Headers): (event: Option<string>)
    ensures event.None? <==> "Event" !in headers || headers["Event"] == "?"
    ensures event.Some? ==> event.value == headers["Event"]
  {
    if "Event" in headers && headers["Event"] != "?" then Some(headers["Event"]) else None
  }

  /** A Result tag of `*` (game unfinished or result unknown) means no result. */
  function GameResult(headers: Headers): (result: Option<string>)
    ensures result.None? <==> "Result" !in headers || headers["Result"] == "*"
    ensures result.Some? ==> result.value == headers["Result"]
  {
    if "Result" in headers && headers["Result"] != "*" then Some(headers["Result"]) else None
  }

  /** The game `parse_pgn_file` yields for one game read from the file. */
  function Normalize(raw: RawGame): (game: ParsedGame)
    ensures game.moves == raw.mainline
    ensures game.pgn == raw.exported
  {
    ParsedGame(
      PlayerName(raw.headers, "White"),
      PlayerName(raw.headers, "Black"),
      DateYear(raw.headers),
      EventName(raw.headers),
      GameResult(raw.headers),
      raw.exported,
      raw.mainline)
  }

  /** The year of a date is what `int()` makes of the text before its first
      dot, the placeholder included (its year part "????" is no number). */
  lemma YearPartOfDate(part: string, rest: string)
    requires '.' !in part
    ensures ParseYear(part + "." + rest) == Text.ParseInt(part)
  {
    var date := part + "." + rest;
    assert date[..|part|] == part;
    FirstDotAt(date, |part|);
    if date == DatePlaceholder {
      assert part == "????";
    }
  }

  /** A date with no dot at all, such as "1858", is all year part. */
  lemma DotlessDate(part: string)
    requires part != "" && '.' !in part
    ensures ParseYear(part) == Text.ParseInt(part)
  {
    assert BeforeFirstDot(part) == part;
  }

  /** A date written as year, dot, anything gives that year back, for every
      year `str` can write, negative ones included. */
  lemma YearOfDate(year: int, rest: string)
    ensures ParseYear(Text.ShowInt(year) + "." + rest) == Some(year)
  {
    var y := Text.ShowInt(year);
    assert '.' !in y by {
      if year < 0 {
        assert y[1..] == Text.ShowNat(-year);
      }
    }
    YearPartOfDate(y, rest);
    Text.ParseShowInt(year);
  }

  /** PGN writes a year below 1000 zero-padded to four digits ("0800.??.??");
      the padding does not change the year. */
  lemma ZeroPaddedYear(zeros: nat, year: nat, rest: string)
    ensures ParseYear(Text.Repeat('0', zeros) + Text.ShowNat(year) + "." + rest) == Some(year)
  {
    var part := Text.Repeat('0', zeros) + Text.ShowNat(year);
    assert Text.AllDigits(part) by {
      Text.LeadingZeros(zeros, Text.ShowNat(year));
    }
    YearPartOfDate(part, rest);
    Text.ParseZeroPadded(zeros, year);
  }

  /** The year 800 written as PGN writes it. */
  lemma EarlyYear()
    ensures ParseYear("0800.??.??") == Some(800)
  {
    assert Text.ShowNat(800) == "800";
    assert "0800.??.??" == Text.Repeat('0', 1) + Text.ShowNat(800) + "." + "??.??";
    ZeroPaddedYear(1, 800, "??.??");
  }

  /** A year with an explicit plus sign, as `int()` accepts it. */
  lemma PlusSignedYear(year: nat, rest: string)
    ensures ParseYear("+" + Text.ShowNat(year) + "." + rest) == Some(year)
  {
    var part := "+" + Text.ShowNat(year);
    assert part[1..] == Text.ShowNat(year);
    YearPartOfDate(part, rest);
    Text.ParsePlusSigned(year);
  }

  /** If the first dot of s is at index n, the text before it is s[..n]. */
  lemma {:induction false} FirstDotAt(s: string, n: nat)
    requires n < |s| && s[n] == '.' && '.' !in s[..n]
    ensures BeforeFirstDot(s) == s[..n]
  {
    if n > 0 {
      assert s[1..][..n - 1] == s[1..n];
      assert s[1..n] == s[..n][1..];
      FirstDotAt(s[1..], n - 1);
    }
  }

  /** A date whose year part is not a number, such as "????.01.01", gives no
      year and no failure. */
  lemma UnknownYearPart(rest: string)
    ensures ParseYear("????." + rest) == None
  {
    var date := "????." + rest;
    assert '.' !in date[..4];
    FirstDotAt(date, 4);
    assert BeforeFirstDot(date)[0] == '?';
  }

  /** `parse_pgn_file`: one `ParsedGame` per game read, in file order, each
      holding one SAN entry per mainline move. */
  method ParsePgnFile(file: seq<RawGame>) returns (games: seq<ParsedGame>)
    ensures |games| == |file|
    ensures forall g :: 0 <= g < |file| ==> games[g] == Normalize(file[g])
  {
    games := [];
    var g := 0;
    while g < |file|
      invariant 0 <= g <= |file|
      invariant |games| == g
      invariant forall i :: 0 <= i < g ==> games[i] == Normalize(file[i])
    {
      var raw := file[g];
      var headers := raw.headers;
      var white := PlayerName(headers, "White");
      var black := PlayerName(headers, "Black");
      var year := DateYear(headers);
      var event := EventName(headers);
      var result := GameResult(headers);
      var moves := [];
      var m := 0;
      while m < |raw.mainline|
        invariant 0 <= m <= |raw.mainline|
        invariant moves == raw.mainline[..m]
      {
        moves := moves + [raw.mainline[m]];
        m := m + 1;
      }
      games := games + [ParsedGame(white, black, year, event, result, raw.exported, moves)];
      g := g + 1;
    }
  }
}
