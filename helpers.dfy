/** The small text helpers of the players and the static page: custom-input
    parsing, the cookie lookup behind the CSRF token, the detailed step
    description and the reversed-data generator. */
module Helpers {
  import opened Wrappers
  import opened StepModel
  import opened Text

  // ---------------------------------------------------------------------------
  // Custom input

  /** `parseInt(n.trim())` of each token; `None` is NaN. */
  function Numbers(tokens: seq<string>): (r: seq<Option<int>>)
    ensures |r| == |tokens| && forall k :: 0 <= k < |tokens| ==> r[k] == ParseInt(Trim(tokens[k]))
  {
    seq(|tokens|, k requires 0 <= k < |tokens| => ParseInt(Trim(tokens[k])))
  }

  /** The numbers when none is NaN: a `map` whose callback throws on NaN. */
  function Collect(parsed: seq<Option<int>>): (r: Option<seq<int>>)
    ensures r.Some? ==> (|r.value| == |parsed| && forall k :: 0 <= k < |parsed| ==> parsed[k] == Some(r.value[k]))
    ensures r.None? <==> exists k :: 0 <= k < |parsed| && parsed[k].None?
  {
    if |parsed| == 0 then Some([])
    else
      match (parsed[0], Collect(parsed[1..]))
      case (Some(x), Some(rest)) => Some([x] + rest)
      case (None, _) => None
      case (_, None) => (assert parsed[1..][0] == parsed[1]; None)
  }

  /** With no NaN among them, the numbers are collected as they are. */
  lemma CollectAll(parsed: seq<Option<int>>, xs: seq<int>)
    requires |parsed| == |xs| && forall k :: 0 <= k < |xs| ==> parsed[k] == Some(xs[k])
    ensures Collect(parsed) == Some(xs)
  {
    var r := Collect(parsed);
    assert r.Some?;
    assert r.value == xs;
  }

  /** Every token trimmed and read as an integer; one unreadable token fails the whole list. */
  function ParseAll(tokens: seq<string>): Option<seq<int>> {
    Collect(Numbers(tokens))
  }

  /** How the two React players cut the trimmed text: on commas when there is
      one, otherwise on runs of white space. */
  function Tokens(raw: string): seq<string> {
    if ',' in raw then Split(raw, ',') else SplitSpaces(raw)
  }

  /** `applyCustomData` of the 3D visualizer and of the visualization player:
      the numbers, or the message of the error it throws. */
  function ParseCustomInput(text: string): (r: Result<seq<int>, string>)
    ensures r == Err("Empty input") <==> Trim(text) == ""
    ensures r == Err("Invalid number") <==> Trim(text) != "" && ParseAll(Tokens(Trim(text))).None?
    ensures r.Ok? ==> |r.value| == |Tokens(Trim(text))| >= 1
    ensures r.Err? ==> r.error != "No valid numbers found"
  {
    var raw := Trim(text);
    if raw == "" then Err("Empty input")
    else
      match ParseAll(Tokens(raw))
      case None => Err("Invalid number")
      case Some(data) => if |data| == 0 then Err("No valid numbers found") else Ok(data)
  }

  /** The input the player keeps after applying `text`: the parsed numbers,
      or the previous input when parsing failed. */
  function InputAfterCustom(previous: seq<int>, text: string): (r: seq<int>)
    ensures ParseCustomInput(text).Err? ==> r == previous
    ensures ParseCustomInput(text).Ok? ==> r == ParseCustomInput(text).value && |r| >= 1
  {
    match ParseCustomInput(text)
    case Ok(data) => data
    case Err(_) => previous
  }

  /** `applyCustomData` of the static page: split the raw text on commas and
      reject it when any token is NaN; white space alone is not a separator. */
  function ParseCommaInput(text: string): (r: Option<seq<int>>)
    ensures r.Some? ==> |r.value| == |Split(text, ',')| >= 1
    ensures r.None? <==> exists k :: 0 <= k < |Split(text, ',')| && Numbers(Split(text, ','))[k].None?
  {
    ParseAll(Split(text, ','))
  }

  /** The numbers written in decimal, one string each. */
  function ShowAll(xs: seq<int>): (r: seq<string>)
    ensures |r| == |xs| && forall k :: 0 <= k < |xs| ==> r[k] == Show(xs[k])
  {
    if |xs| == 0 then [] else [Show(xs[0])] + ShowAll(xs[1..])
  }

  predicate Numeral(c: char) {
    c == '-' || IsDigit(c)
  }

  lemma {:induction false} ShowNatDigits(n: nat)
    ensures forall i :: 0 <= i < |ShowNat(n)| ==> IsDigit(ShowNat(n)[i])
  {
  }

  /** `Show` writes an optional minus and digits, ending in a digit. */
  lemma ShowNumeral(n: int)
    ensures forall i :: 0 <= i < |Show(n)| ==> Numeral(Show(n)[i])
    ensures IsDigit(Show(n)[|Show(n)| - 1])
  {
    if n < 0 {
      assert Show(n) == "-" + ShowNat(-n);
    }
  }

  /** Every character of the comma-joined numbers is a comma or a numeral character. */
  lemma {:induction false} JoinedNumerals(xs: seq<int>)
    requires |xs| >= 1
    ensures var j := Join(ShowAll(xs), ",");
      |j| >= 1 && (forall i :: 0 <= i < |j| ==> j[i] == ',' || Numeral(j[i])) && IsDigit(j[|j| - 1])
    decreases |xs|
  {
    ShowNumeral(xs[0]);
    var parts := ShowAll(xs);
    if |xs| > 1 {
      JoinedNumerals(xs[1..]);
      assert parts[1..] == ShowAll(xs[1..]);
      var tail := Join(parts[1..], ",");
      assert Join(parts, ",") == Show(xs[0]) + "," + tail;
    }
  }

  /** Text without white space is one field of `split(/\s+/)`. */
  lemma {:induction false} SplitSpacesUnbroken(s: string)
    requires |s| >= 1 && forall i :: 0 <= i < |s| ==> !IsSpace(s[i])
    ensures SplitSpaces(s) == [s]
    decreases |s|
  {
    if |s| == 1 {
      assert SplitSpaces(s[1..]) == [""];
    } else {
      SplitSpacesUnbroken(s[1..]);
    }
    assert [s[0]] + s[1..] == s;
  }

  /** A number written in decimal and trimmed parses to itself. */
  lemma ShownParses(n: int)
    ensures ParseInt(Trim(Show(n))) == Some(n)
  {
    ShowNumeral(n);
    TrimOfUnpadded(Show(n));
    ParseShow(n);
  }

  /** Every number, written back in decimal, parses to itself. */
  lemma ParseAllShown(xs: seq<int>)
    ensures ParseAll(ShowAll(xs)) == Some(xs)
  {
    var parsed := Numbers(ShowAll(xs));
    forall k | 0 <= k < |xs|
      ensures parsed[k] == Some(xs[k])
    {
      ShownParses(xs[k]);
    }
    CollectAll(parsed, xs);
  }

  /** No number written in decimal contains a comma. */
  lemma ShownCommaFree(xs: seq<int>)
    ensures forall k :: 0 <= k < |xs| ==> ',' !in ShowAll(xs)[k]
  {
    forall k | 0 <= k < |xs|
      ensures ',' !in ShowAll(xs)[k]
    {
      ShowNumeral(xs[k]);
    }
  }

  /** The comma-joined numbers hold no white space. */
  lemma JoinedUnspaced(xs: seq<int>)
    requires |xs| >= 1
    ensures var j := Join(ShowAll(xs), ",");
      j != "" && forall i :: 0 <= i < |j| ==> !IsSpace(j[i])
  {
    JoinedNumerals(xs);
  }

  /** The comma-joined numbers need no trimming and cut back into the numbers. */
  lemma JoinedTokens(xs: seq<int>)
    requires |xs| >= 1
    ensures var j := Join(ShowAll(xs), ",");
      Trim(j) == j && j != "" && Tokens(j) == ShowAll(xs) && Split(j, ',') == ShowAll(xs)
  {
    var parts := ShowAll(xs);
    var j := Join(parts, ",");
    JoinedUnspaced(xs);
    TrimOfUnpadded(j);
    ShownCommaFree(xs);
    SplitJoin(parts, ',');
    if |xs| == 1 {
      SingleToken(parts, j);
    } else {
      CommaAfterFirst(parts);
    }
  }

  /** One part joined is itself, and without white space it is one token. */
  lemma SingleToken(parts: seq<string>, j: string)
    requires |parts| == 1 && j == Join(parts, ",") && j != ""
    requires forall i :: 0 <= i < |j| ==> !IsSpace(j[i])
    requires Split(j, ',') == parts
    ensures Tokens(j) == parts
  {
    SplitSpacesUnbroken(j);
    assert j == parts[0];
    assert ',' !in j by {
      assert ',' !in Split(j, ',')[0];
    }
  }

  /** Two or more parts joined hold a comma. */
  lemma CommaAfterFirst(parts: seq<string>)
    requires |parts| >= 2
    ensures ',' in Join(parts, ",")
  {
    var j := Join(parts, ",");
    assert j == parts[0] + "," + Join(parts[1..], ",");
    assert j[|parts[0]|] == ',';
  }

  /** Both parsers read back a non-empty list written with commas. */
  lemma CustomInputRoundTrip(xs: seq<int>)
    requires |xs| >= 1
    ensures ParseCustomInput(Join(ShowAll(xs), ",")) == Ok(xs)
    ensures ParseCommaInput(Join(ShowAll(xs), ",")) == Some(xs)
  {
    JoinedTokens(xs);
    ParseAllShown(xs);
  }

  lemma SpaceThenFour()
    ensures SplitSpaces(" 4") == ["", "4"]
  {
    var t := " 4";
    SplitSpacesUnbroken("4");
    assert t[1..] == "4";
    assert SkipSpaces(t) == "4";
  }

  lemma ThreeSpaceFour()
    ensures SplitSpaces("3 4") == ["3", "4"]
  {
    var s := "3 4";
    SpaceThenFour();
    assert s[1..] == " 4";
    assert [s[0]] + "" == "3";
  }

  lemma SpacedTokens()
    ensures Trim("3 4") == "3 4" && Tokens("3 4") == ["3", "4"]
  {
    TrimOfUnpadded("3 4");
    ThreeSpaceFour();
  }

  lemma LeadingThree()
    ensures ParseInt(Trim("3 4")) == Some(3)
  {
    var s := "3 4";
    TrimOfUnpadded(s);
    TrimStartUnpadded(s);
    assert Unsigned(s) == s;
    assert DigitPrefixLength(s) == 1;
    assert s[..1] == "3";
  }

  lemma ThreeAndFourShown()
    ensures ShowAll([3, 4]) == ["3", "4"]
  {
    assert Show(3) == [DigitChar(3)] == "3";
    assert Show(4) == [DigitChar(4)] == "4";
  }

  lemma ThreeAndFour()
    ensures ParseAll(["3", "4"]) == Some([3, 4])
  {
    ParseAllShown([3, 4]);
    ThreeAndFourShown();
  }

  /** A trimmed text whose tokens all read gives those numbers. */
  lemma CustomInputOk(text: string, xs: seq<int>)
    requires Trim(text) != "" && ParseAll(Tokens(Trim(text))) == Some(xs) && |xs| >= 1
    ensures ParseCustomInput(text) == Ok(xs)
  {
  }

  lemma CustomReadsBoth()
    ensures ParseCustomInput("3 4") == Ok([3, 4])
  {
    SpacedTokens();
    ThreeAndFour();
    CustomInputOk("3 4", [3, 4]);
  }

  /** One token that reads gives the one number. */
  lemma OneNumber(a: string, x: int)
    requires ParseInt(Trim(a)) == Some(x)
    ensures ParseAll([a]) == Some([x])
  {
    assert Numbers([a]) == [Some(x)];
    CollectAll([Some(x)], [x]);
  }

  lemma CommaReadsLeading()
    ensures ParseCommaInput("3 4") == Some([3])
  {
    SplitNoSep("3 4", ',');
    LeadingThree();
    OneNumber("3 4", 3);
  }

  /** The two parsers part ways on white space: the React players read two
      numbers in `"3 4"`, the static page reads only the leading `3`. */
  lemma ParsersDisagreeOnSpaces()
    ensures ParseCustomInput("3 4") == Ok([3, 4])
    ensures ParseCommaInput("3 4") == Some([3])
  {
    CustomReadsBoth();
    CommaReadsLeading();
  }

  // ---------------------------------------------------------------------------
  // Cookies

  /** Which entries, trimmed, start with `prefix`. */
  function Matching(entries: seq<string>, prefix: string): (r: seq<bool>)
    ensures |r| == |entries| && forall k :: 0 <= k < |entries| ==> r[k] == StartsWith(Trim(entries[k]), prefix)
  {
    seq(|entries|, k requires 0 <= k < |entries| => StartsWith(Trim(entries[k]), prefix))
  }

  /** Index of the first `true`. */
  function FirstTrue(bs: seq<bool>): (r: Option<nat>)
    ensures r.Some? ==> (r.value < |bs| && bs[r.value] && forall k :: 0 <= k < r.value ==> !bs[k])
    ensures r.None? ==> forall k :: 0 <= k < |bs| ==> !bs[k]
  {
    if |bs| == 0 then None
    else if bs[0] then Some(0)
    else match FirstTrue(bs[1..])
      case None => None
      case Some(i) => Some(i + 1)
  }

  /** The decoded rest of the first entry that, trimmed, starts with `name=`;
      `decode` stands for `decodeURIComponent`. */
  function CookieIn(entries: seq<string>, name: string, decode: string -> string): Option<string> {
    match FirstTrue(Matching(entries, name + "="))
    case None => None
    case Some(i) => Some(decode(Trim(entries[i])[|name| + 1..]))
  }

  /** The value of cookie `name` in `document.cookie`: nothing for an empty
      cookie string, else the first match among its `;`-separated entries. */
  function CookieValue(cookie: string, name: string, decode: string -> string): Option<string> {
    if cookie == "" then None else CookieIn(Split(cookie, ';'), name, decode)
  }

  /** A value is found exactly when some entry starts with `name=`, and it is
      the decoded rest of the first such entry. */
  lemma CookieInFound(entries: seq<string>, name: string, decode: string -> string)
    ensures var m := Matching(entries, name + "=");
      CookieIn(entries, name, decode).Some? <==> true in m
    ensures var m := Matching(entries, name + "=");
      CookieIn(entries, name, decode).Some? ==>
        exists k :: 0 <= k < |entries| && m[k] && (forall j :: 0 <= j < k ==> !m[j]) &&
          CookieIn(entries, name, decode).value == decode(Trim(entries[k])[|name| + 1..])
  {
    var m := Matching(entries, name + "=");
    var f := FirstTrue(m);
    if f.Some? {
      assert m[f.value];
    }
  }

  /** The first `true` is the one at `i` when none comes before it. */
  lemma FirstTrueAt(bs: seq<bool>, i: nat)
    requires i < |bs| && bs[i] && forall k :: 0 <= k < i ==> !bs[k]
    ensures FirstTrue(bs) == Some(i)
  {
  }

  /** The loop of `getCookie` over the entries, stopping at the first match. */
  method FindCookie(entries: seq<string>, name: string, decode: string -> string) returns (value: Option<string>)
    ensures value == CookieIn(entries, name, decode)
  {
    var prefix := name + "=";
    ghost var m := Matching(entries, prefix);
    var i := 0;
    while i < |entries|
      invariant 0 <= i <= |entries|
      invariant forall k :: 0 <= k < i ==> !m[k]
    {
      var entry := Trim(entries[i]);
      var found := StartsWith(entry, prefix);
      if found {
        CookieAt(entries, name, decode, i);
        return Some(decode(entry[|name| + 1..]));
      }
      i := i + 1;
    }
    CookieAbsent(entries, name, decode);
    return None;
  }

  /** The lookup answers from entry `i` when it is the first match. */
  lemma CookieAt(entries: seq<string>, name: string, decode: string -> string, i: nat)
    requires i < |entries| && StartsWith(Trim(entries[i]), name + "=")
    requires forall k :: 0 <= k < i ==> !Matching(entries, name + "=")[k]
    ensures CookieIn(entries, name, decode) == Some(decode(Trim(entries[i])[|name| + 1..]))
  {
    FirstTrueAt(Matching(entries, name + "="), i);
  }

  /** With no match the lookup finds nothing. */
  lemma CookieAbsent(entries: seq<string>, name: string, decode: string -> string)
    requires forall k :: 0 <= k < |entries| ==> !Matching(entries, name + "=")[k]
    ensures CookieIn(entries, name, decode).None?
  {
  }

  /** `getCookie(name)` of the static page. */
  method GetCookie(cookie: string, name: string, decode: string -> string) returns (value: Option<string>)
    ensures value == CookieValue(cookie, name, decode)
  {
    value := None;
    if cookie != "" {
      value := FindCookie(Split(cookie, ';'), name, decode);
    }
  }

  /** `getCsrfToken` of the 3D visualizer: the same loop for the `csrftoken` cookie. */
  method GetCsrfToken(cookie: string, decode: string -> string) returns (value: Option<string>)
    ensures value == CookieValue(cookie, "csrftoken", decode)
  {
    value := GetCookie(cookie, "csrftoken", decode);
  }

  // ---------------------------------------------------------------------------
  // Step description

  /** The field a detail of `getDetailedDescription` reads is missing, so the
      page's call throws a `TypeError`. */
  predicate DetailMissing(s: Step) {
    (s.kind == Initial && s.state.None?) || (s.kind == Comparison && s.comparing.None?) ||
    (s.kind == Swap && s.swapped.None?) || (s.kind == Sorted && s.sortedIndices.None?)
  }

  /** `getDetailedDescription`: the description with a detail for initial,
      comparison, swap and sorted records; `None` where it throws. */
  function DetailedDescription(step: Option<Step>): (r: Option<string>)
    ensures step.None? ==> r == Some("")
    ensures r.None? <==> step.Some? && DetailMissing(step.value)
    ensures step.Some? && r.Some? ==> StartsWith(r.value, step.value.description)
    ensures step.Some? && step.value.kind !in {Initial, Comparison, Swap, Sorted} ==> r == Some(step.value.description)
    ensures step.Some? && step.value.kind == Initial && step.value.state.Some? ==>
      r == Some(step.value.description + " (" + Show(|step.value.state.value|) + " elements)")
  {
    if step.None? then Some("")
    else
      var s := step.value;
      match s.kind
      case Initial => if s.state.None? then None else Some(s.description + " (" + Show(|s.state.value|) + " elements)")
      case Comparison => if s.comparing.None? then None else Some(s.description + " [" + Join(ShowAll(s.comparing.value), " and ") + "]")
      case Swap => if s.swapped.None? then None else Some(s.description + " [" + Join(ShowAll(s.swapped.value), " and ") + "]")
      case Sorted => if s.sortedIndices.None? then None else Some(s.description + " [" + Show(|s.sortedIndices.value|) + " elements sorted]")
      case _ => Some(s.description)
  }

  // ---------------------------------------------------------------------------
  // Reversed data

  /** `size, size - 1, …, 1`; a size below 1 gives no elements. */
  function ReversedData(size: int): (r: seq<int>)
    ensures |r| == if size < 0 then 0 else size
    ensures forall i :: 0 <= i < |r| ==> r[i] == size - i
  {
    if size <= 0 then [] else seq(size, i requires 0 <= i < size => size - i)
  }

  function Reverse(s: seq<int>): (r: seq<int>)
    ensures |r| == |s| && forall i :: 0 <= i < |s| ==> r[i] == s[|s| - 1 - i]
  {
    if |s| == 0 then [] else Reverse(s[1..]) + [s[0]]
  }

  lemma {:induction false} ReverseKeepsMultiset(s: seq<int>)
    ensures multiset(Reverse(s)) == multiset(s)
    decreases |s|
  {
    if |s| > 0 {
      ReverseKeepsMultiset(s[1..]);
      assert s == [s[0]] + s[1..];
    }
  }

  /** The reversed data counts down from `size` to 1: strictly descending,
      and read backwards it is `1, 2, …, size`, so it holds those values once each. */
  lemma ReversedDataFacts(size: nat)
    ensures forall i, j :: 0 <= i < j < size ==> ReversedData(size)[i] > ReversedData(size)[j]
    ensures Reverse(ReversedData(size)) == Range(1, size + 1)
    ensures multiset(ReversedData(size)) == multiset(Range(1, size + 1))
  {
    ReverseKeepsMultiset(ReversedData(size));
  }
}
