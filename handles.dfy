/** The settings form of the dashboard: the comma-separated handle field, as
    it is shown (the stored list joined with ", "), parsed before saving,
    counted in the summary card, and the rule that enables "Test Run Now". */
module DashboardContent {
  import opened Text

  /** The pieces of `split(",")`, each trimmed. */
  function TrimAll(pieces: seq<string>): (r: seq<string>)
    ensures |r| == |pieces| && forall i :: 0 <= i < |r| ==> r[i] == Trim(pieces[i])
  {
    seq(|pieces|, i requires 0 <= i < |pieces| => Trim(pieces[i]))
  }

  /** `filter((u) => u.length > 0)`. */
  function NonEmpty(pieces: seq<string>): seq<string> {
    if |pieces| == 0 then []
    else (if pieces[0] != "" then [pieces[0]] else []) + NonEmpty(pieces[1..])
  }

  /** The handle list sent with a save: split at commas, trimmed, empty
      pieces dropped. */
  function ParseHandles(text: string): seq<string> {
    NonEmpty(TrimAll(Split(text, ',')))
  }

  /** The field's initial text: `twitterUsernames.join(", ")`. */
  function ShowHandles(handles: seq<string>): string {
    Join(handles, ", ")
  }

  /** `split(",").filter((u) => u.trim()).length`: the pieces whose trim is
      not empty, counted untrimmed. */
  function CountTracked(pieces: seq<string>): nat {
    if |pieces| == 0 then 0
    else (if Trim(pieces[0]) != "" then 1 else 0) + CountTracked(pieces[1..])
  }

  /** The number of accounts shown as tracked. */
  function AccountCount(text: string): nat {
    CountTracked(Split(text, ','))
  }

  /** `disabled={testLoading || twitterUsernames.trim() === ""}`. */
  predicate TestRunDisabled(testLoading: bool, text: string) {
    testLoading || Trim(text) == ""
  }

  /** A handle the parser can give back: non-empty, trimmed, without a comma. */
  predicate CleanHandle(h: string) {
    h != "" && IsTrimmed(h) && ',' !in h
  }

  // ------------------------------------------------------------ Properties

  /** The kept pieces are exactly the non-empty ones, in their order. */
  lemma {:induction false} NonEmptyKeeps(pieces: seq<string>)
    ensures forall h :: h in NonEmpty(pieces) <==> h in pieces && h != ""
    ensures |NonEmpty(pieces)| <= |pieces|
  {
    if |pieces| > 0 {
      NonEmptyKeeps(pieces[1..]);
      assert pieces == [pieces[0]] + pieces[1..];
    }
  }

  /** Nothing is dropped from a list without empty pieces. */
  lemma {:induction false} NonEmptyAll(pieces: seq<string>)
    requires forall i :: 0 <= i < |pieces| ==> pieces[i] != ""
    ensures NonEmpty(pieces) == pieces
  {
    if |pieces| > 0 {
      NonEmptyAll(pieces[1..]);
      assert [pieces[0]] + pieces[1..] == pieces;
    }
  }

  /** Every parsed handle is non-empty, has no whitespace at either end and
      holds no comma, and each is a trimmed piece of the text between commas. */
  lemma ParseClean(text: string)
    ensures forall h :: h in ParseHandles(text) ==> CleanHandle(h)
    ensures forall h :: h in ParseHandles(text) ==> exists p :: p in Split(text, ',') && h == Trim(p)
  {
    var pieces := Split(text, ',');
    var trimmed := TrimAll(pieces);
    SplitShape(text, ',');
    NonEmptyKeeps(trimmed);
    forall h | h in ParseHandles(text) ensures CleanHandle(h) && exists p :: p in pieces && h == Trim(p) {
      var i :| 0 <= i < |trimmed| && trimmed[i] == h;
      TrimSubstring(pieces[i]);
      assert pieces[i] in pieces;
    }
  }

  /** `trim` only removes characters: a character of the result is one of the input. */
  lemma TrimSubstring(s: string)
    ensures forall c :: c in Trim(s) ==> c in s
  {
    var t := TrimStart(s);
    var r := TrimEnd(t);
    forall c | c in r ensures c in s {
      assert c in t[..|r|];
      assert c in s[|s| - |t|..];
    }
  }

  /** The pieces of the shown text: the first handle, then every later one
      behind the space that followed its comma. */
  lemma {:induction false} ShowPieces(handles: seq<string>)
    requires forall i :: 0 <= i < |handles| ==> CleanHandle(handles[i])
    ensures var p := Split(ShowHandles(handles), ',');
      if |handles| == 0 then p == [""]
      else |p| == |handles| && p[0] == handles[0] && forall i :: 1 <= i < |handles| ==> p[i] == " " + handles[i]
  {
    if |handles| == 1 {
      SplitAlone(handles[0], ',');
    } else if |handles| > 1 {
      var h := handles[0];
      var rest := handles[1..];
      var shown := ShowHandles(rest);
      ShowPieces(rest);
      assert ShowHandles(handles) == h + [','] + ([' '] + shown);
      SplitPiece(h, [' '] + shown, ',');
      SplitCons(' ', shown, ',');
      var q := Split(shown, ',');
      var p := Split(ShowHandles(handles), ',');
      assert p == [h] + ([[' '] + q[0]] + q[1..]);
      forall i | 1 <= i < |handles| ensures p[i] == " " + handles[i] {
        if i >= 2 { assert p[i] == q[i - 1]; }
      }
    }
  }

  /** Showing a list of clean handles and parsing the text gives the list back. */
  lemma ParseShow(handles: seq<string>)
    requires forall i :: 0 <= i < |handles| ==> CleanHandle(handles[i])
    ensures ParseHandles(ShowHandles(handles)) == handles
  {
    ShowPieces(handles);
    var p := Split(ShowHandles(handles), ',');
    if |handles| > 0 {
      var t := TrimAll(p);
      forall i | 0 <= i < |handles| ensures t[i] == handles[i] {
        if i == 0 {
          TrimTrimmed(handles[0]);
        } else {
          TrimAfterSpaces(" ", handles[i]);
        }
      }
      assert t == handles;
      NonEmptyAll(handles);
    } else {
      assert TrimAll(p) == [""];
    }
  }

  /** Parsing is stable: showing the parsed list and parsing again changes nothing. */
  lemma ParseStable(text: string)
    ensures ParseHandles(ShowHandles(ParseHandles(text))) == ParseHandles(text)
  {
    var hs := ParseHandles(text);
    ParseClean(text);
    assert forall i :: 0 <= i < |hs| ==> hs[i] in hs;
    ParseShow(hs);
  }

  /** Counting the pieces with a non-blank trim is counting the parsed handles. */
  lemma {:induction false} CountTrackedParsed(pieces: seq<string>)
    ensures CountTracked(pieces) == |NonEmpty(TrimAll(pieces))|
  {
    if |pieces| > 0 {
      CountTrackedParsed(pieces[1..]);
      assert TrimAll(pieces)[1..] == TrimAll(pieces[1..]);
    }
  }

  /** The summary card counts exactly the handles a save would send. */
  lemma AccountCountParsed(text: string)
    ensures AccountCount(text) == |ParseHandles(text)|
  {
    CountTrackedParsed(Split(text, ','));
  }

  /** "Test Run Now" is enabled for ", ," although that text parses to no handle. */
  lemma CommasOnlyEnabled()
    ensures !TestRunDisabled(false, ", ,") && ParseHandles(", ,") == []
  {
    assert Trim(", ,") == ", ," by { TrimTrimmed(", ,"); }
    var last := Split(",", ',');
    assert last == ["", ""] by {
      assert ","[1..] == "";
    }
    var mid := Split(" ,", ',');
    assert mid == [" ", ""] by {
      assert " ," == [' '] + ",";
      SplitCons(' ', ",", ',');
      assert [' '] + "" == " ";
    }
    var p := Split(", ,", ',');
    assert p == ["", " ", ""] by {
      assert ", ,"[1..] == " ,";
    }
    var t := TrimAll(p);
    assert Trim(" ") == "";
    assert t == ["", "", ""];
  }
}
