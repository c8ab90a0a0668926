/** How the two chat-completion replies are turned into values: the shared
    code-fence stripper, the fail-open noise filter (stage 1) and the
    fail-closed digest formatter (stage 2). The prompts and the client are
    not modelled; the completions are oracles. */
module LlmService {
  import opened Wrappers
  import opened Text
  import opened Json
  import opened Records
  import opened Seqs

  // ------------------------------------------------------- Fence stripping

  /** The text the first regular expression starts with: three backticks and "jso". */
  const Tag: string := "```jso"

  predicate TagAt(s: string, i: int) {
    0 <= i && i + 6 <= |s| && s[i..i + 6] == Tag
  }

  /** No match of the first regular expression starts anywhere in `s`. */
  predicate NoTag(s: string) {
    forall i :: 0 <= i < |s| ==> !TagAt(s, i)
  }

  /** `s.replace(/```json?\n?/g, "")`: scanning left to right, every "```jso"
      is removed together with an 'n' right after it, if any, and then a
      newline right after that, if any; all other text is kept. */
  function StripJsonTags(s: string): (r: string)
    ensures |r| <= |s|
    ensures NoTag(s) ==> r == s
    decreases |s|
  {
    if TagAt(s, 0) then
      var a := s[6..];
      var b := if a != [] && a[0] == 'n' then a[1..] else a;
      var c := if b != [] && b[0] == '\n' then b[1..] else b;
      StripJsonTags(c)
    else if s == [] then []
    else
      assert forall i :: TagAt(s[1..], i) ==> TagAt(s, i + 1) by {
        forall i | TagAt(s[1..], i) ensures TagAt(s, i + 1) {
          assert s[1..][i..i + 6] == s[i + 1..i + 7];
        }
      }
      [s[0]] + StripJsonTags(s[1..])
  }

  /** `s.replace(/```\n?$/g, "")`: one closing fence at the very end, with
      the newline after it if there is one. */
  function StripClosingFence(s: string): (r: string)
    ensures EndsWith(s, "```\n") ==> r == s[..|s| - 4]
    ensures !EndsWith(s, "```\n") && EndsWith(s, "```") ==> r == s[..|s| - 3]
    ensures !EndsWith(s, "```") && !EndsWith(s, "```\n") ==> r == s
  {
    if EndsWith(s, "```\n") then s[..|s| - 4]
    else if EndsWith(s, "```") then s[..|s| - 3]
    else s
  }

  /** The text handed to `JSON.parse`: the trimmed reply, stripped only when
      it starts with three backticks. */
  function ExtractJson(content: string): string {
    var t := Trim(content);
    if StartsWith(t, "```") then StripClosingFence(StripJsonTags(t)) else t
  }

  /** A reply that does not start with a fence (after trimming) is only trimmed. */
  lemma NoFenceOnlyTrimmed(content: string)
    requires !StartsWith(Trim(content), "```")
    ensures ExtractJson(content) == Trim(content)
  {
  }

  /** Text without an 'o' cannot complete a tag that starts before it. */
  lemma NoTagAppend(body: string, q: string)
    requires NoTag(body) && 'o' !in q
    ensures NoTag(body + q)
  {
    var s := body + q;
    forall i | 0 <= i && i + 6 <= |s| ensures !TagAt(s, i) {
      if i + 6 <= |body| {
        assert s[i..i + 6] == body[i..i + 6];
        assert !TagAt(body, i);
      } else {
        assert s[i + 5] == q[i + 5 - |body|];
        assert Tag[5] == 'o';
      }
    }
  }

  /** "```" and a newline cannot start a tag, nor can any part of it. */
  lemma NoTagBareFence(x: string)
    requires NoTag(x)
    ensures NoTag("```\n" + x)
  {
    var s := "```\n" + x;
    forall i | 0 <= i && i + 6 <= |s| ensures !TagAt(s, i) {
      if i >= 4 {
        assert s[i..i + 6] == x[i - 4..i + 2];
        assert !TagAt(x, i - 4);
      } else {
        assert s[3] == '\n';
        assert Tag[3] == 'j' && Tag[2] == '`' && Tag[1] == '`' && Tag[0] == '`';
        assert s[i..i + 6][3 - i] == '\n';
      }
    }
  }

  /** A leading "```json" line is removed whole, newline included. */
  lemma LeadingTagRemoved(x: string)
    ensures StripJsonTags("```json\n" + x) == StripJsonTags(x)
  {
    var s := "```json\n" + x;
    assert TagAt(s, 0);
    assert s[6..] == "n\n" + x;
    assert ("n\n" + x)[1..] == "\n" + x;
    assert ("\n" + x)[1..] == x;
  }

  /** "```jso" and a newline, without the 'n', are removed together. */
  lemma TagNewlineRemoved(x: string)
    ensures StripJsonTags(Tag + "\n" + x) == StripJsonTags(x)
  {
    var s := Tag + "\n" + x;
    assert TagAt(s, 0);
    assert s[6..] == "\n" + x;
    assert ("\n" + x)[1..] == x;
  }

  /** "```json" without a newline after it is removed, and nothing more. */
  lemma TagWithoutNewlineRemoved(x: string)
    requires x == [] || x[0] != '\n'
    ensures StripJsonTags(Tag + "n" + x) == StripJsonTags(x)
  {
    var s := Tag + "n" + x;
    assert TagAt(s, 0);
    assert s[6..] == "n" + x;
    assert ("n" + x)[1..] == x;
  }

  /** A bare "```jso" followed by neither 'n' nor a newline is removed alone. */
  lemma BareTagRemoved(x: string)
    requires x == [] || (x[0] != 'n' && x[0] != '\n')
    ensures StripJsonTags(Tag + x) == StripJsonTags(x)
  {
    var s := Tag + x;
    assert TagAt(s, 0);
    assert s[6..] == x;
  }

  /** A tag in the tail of `s` is a tag of `s`, one position later. */
  lemma TagShift(s: string, i: int)
    requires s != [] && TagAt(s[1..], i)
    ensures TagAt(s, i + 1)
  {
    assert s[1..][i..i + 6] == s[i + 1..i + 7];
  }

  /** No tag starts before position `n` of `s`. */
  predicate NoTagBefore(s: string, n: int) {
    forall i :: 0 <= i < n ==> !TagAt(s, i)
  }

  /** Where no tag starts, the first character is kept. */
  lemma StripPlainHead(s: string)
    requires s != [] && !TagAt(s, 0)
    ensures StripJsonTags(s) == [s[0]] + StripJsonTags(s[1..])
  {
  }

  /** No tag before `n` in `s` is no tag before `n - 1` in its tail. */
  lemma NoTagBeforeTail(s: string, n: int)
    requires 0 < n <= |s| && NoTagBefore(s, n)
    ensures NoTagBefore(s[1..], n - 1)
  {
    forall i | 0 <= i < n - 1 ensures !TagAt(s[1..], i) {
      if TagAt(s[1..], i) {
        TagShift(s, i);
      }
    }
  }

  /** The head, then the tail's front, then more, is the front, then more. */
  lemma ConsFront(s: string, n: nat, x: string)
    requires 0 < n <= |s|
    ensures [s[0]] + (s[1..][..n - 1] + x) == s[..n] + x
  {
    assert s[..n] == [s[0]] + s[1..][..n - 1];
  }

  /** The first `n` characters of `s`, where no tag starts, are kept, and
      stripping goes on from position `n`. */
  lemma {:induction false} StripKeepsFront(s: string, n: nat)
    requires n <= |s| && NoTagBefore(s, n)
    ensures StripJsonTags(s) == s[..n] + StripJsonTags(s[n..])
    decreases n
  {
    if n > 0 {
      var t := s[1..];
      StripPlainHead(s);
      NoTagBeforeTail(s, n);
      StripKeepsFront(t, n - 1);
      assert t[n - 1..] == s[n..];
      ConsFront(s, n, StripJsonTags(s[n..]));
    }
  }

  /** Text in which no tag starts is kept as it is, and stripping goes on
      after it: a tag anywhere later is removed as at the start. */
  lemma PlainPrefixKept(p: string, q: string)
    requires forall i :: 0 <= i < |p| ==> !TagAt(p + q, i)
    ensures StripJsonTags(p + q) == p + StripJsonTags(q)
  {
    var s := p + q;
    StripKeepsFront(s, |p|);
    assert s[..|p|] == p && s[|p|..] == q;
  }

  /** A reply fenced as "```json" code is reduced to its body and the
      newline that closed it. */
  lemma FencedJsonExtracted(body: string)
    requires NoTag(body)
    ensures ExtractJson("```json\n" + body + "\n```") == body + "\n"
  {
    var tail := body + "\n```";
    var t := "```json\n" + tail;
    AppendAssoc("```json\n", body, "\n```");
    assert t[0] == '`' && t[|t| - 1] == tail[|tail| - 1] == '`';
    TrimTrimmed(t);
    assert t[..3] == "```";
    LeadingTagRemoved(tail);
    NoTagAppend(body, "\n```");
    ClosingFenceRemoved(body);
  }

  /** A closing fence without a newline after it is cut off. */
  lemma ClosingFenceRemoved(body: string)
    ensures StripClosingFence(body + "\n```") == body + "\n"
  {
    var tail := body + "\n```";
    assert tail[|tail| - 1] == '`';
    assert tail[|tail| - 3..] == "```";
    assert tail[..|tail| - 3] == body + "\n";
  }

  /** A bare fence without "json" is not removed by the first expression;
      only the closing fence goes. */
  lemma BareFenceKept(body: string)
    requires NoTag(body)
    ensures ExtractJson("```\n" + body + "\n```") == "```\n" + body + "\n"
  {
    var t := "```\n" + body + "\n```";
    assert t[0] == '`' && t[|t| - 1] == '`';
    TrimTrimmed(t);
    assert StartsWith(t, "```");
    NoTagAppend(body, "\n```");
    NoTagBareFence(body + "\n```");
    assert t == "```\n" + (body + "\n```");
    assert StripJsonTags(t) == t;
    assert EndsWith(t, "```");
    assert t[..|t| - 3] == "```\n" + body + "\n";
  }

  /** Every "```json" tag is removed, not only the leading one. */
  lemma EveryTagRemoved()
    ensures StripJsonTags("```json\n```json\nx") == "x"
  {
    assert "```json\n```json\nx" == "```json\n" + "```json\nx";
    assert "```json\nx" == "```json\n" + "x";
    LeadingTagRemoved("```json\nx");
    LeadingTagRemoved("x");
    assert NoTag("x");
  }

  // ------------------------------------------------------------- Stage 1

  /** The `{author_name, text, url}` object of a projected tweet. */
  function AsJson(t: TweetData): Json {
    JObj([("author_name", JStr(t.authorName)), ("text", JStr(t.text)), ("url", JStr(t.url))])
  }

  function AsJsonAll(ts: seq<TweetData>): (r: seq<Json>)
    ensures |r| == |ts| && forall i :: 0 <= i < |ts| ==> r[i] == AsJson(ts[i])
  {
    seq(|ts|, i requires 0 <= i < |ts| => AsJson(ts[i]))
  }

  /** The text stage 1 parses: the reply's content, "[]" when it is missing or empty. */
  function NoiseText(content: Option<string>): string {
    ExtractJson(OrElse(content, "[]"))
  }

  /** `filterNoiseWithAI` for a completion reply: a parsed array is returned
      as it is, any other parsed value gives [], and a thrown call or a
      failed parse gives back the input tweets. */
  function FilterNoiseResult(reply: Completion, parse: string -> Result<Json, Error>, input: seq<TweetData>): seq<Json> {
    match reply
    case CompletionThrew(_) => AsJsonAll(input)
    case Completed(content) =>
      match parse(NoiseText(content))
      case Failure(_) => AsJsonAll(input)
      case Success(v) => if v.JArr? then v.items else []
  }

  /** Stage 1 fails open: a thrown call or a failed parse returns the input. */
  lemma FilterNoiseFailOpen(reply: Completion, parse: string -> Result<Json, Error>, input: seq<TweetData>)
    requires reply.CompletionThrew? || parse(NoiseText(reply.content)).Failure?
    ensures FilterNoiseResult(reply, parse, input) == AsJsonAll(input)
  {
  }

  /** Stage 1 returns a parsed array unchanged and replaces any other parsed value by []. */
  lemma FilterNoiseParsed(content: Option<string>, parse: string -> Result<Json, Error>, input: seq<TweetData>, v: Json)
    requires parse(NoiseText(content)) == Success(v)
    ensures v.JArr? ==> FilterNoiseResult(Completed(content), parse, input) == v.items
    ensures !v.JArr? ==> FilterNoiseResult(Completed(content), parse, input) == []
  {
    var r := FilterNoiseResult(Completed(content), parse, input);
    assert r == if v.JArr? then v.items else [];
  }

  /** Missing or empty content is read as "[]": the result is empty, not the input. */
  lemma FilterNoiseDefault(content: Option<string>, parse: string -> Result<Json, Error>, input: seq<TweetData>)
    requires !Truthy(content)
    requires parse("[]") == Success(JArr([]))
    ensures FilterNoiseResult(Completed(content), parse, input) == []
  {
    assert IsTrimmed("[]");
    TrimTrimmed("[]");
    assert NoiseText(content) == "[]";
  }

  // ------------------------------------------------------------- Stage 2

  /** The text stage 2 parses: the reply's content, "{}" when it is missing or empty. */
  function DigestText(content: Option<string>): string {
    ExtractJson(OrElse(content, "{}"))
  }

  /** `formatDigestWithAI` for a completion reply: the parsed value, or the
      thrown error. */
  function FormatDigestResult(reply: Completion, parse: string -> Result<Json, Error>): Result<Json, Error> {
    match reply
    case CompletionThrew(e) => Failure(e)
    case Completed(content) => parse(DigestText(content))
  }

  /** Stage 2 fails closed: it fails exactly when the call or the parse
      failed, with that same error, and otherwise returns the parsed value
      whatever its shape. */
  lemma FormatDigestFailClosed(reply: Completion, parse: string -> Result<Json, Error>)
    ensures reply.CompletionThrew? ==> FormatDigestResult(reply, parse) == Failure(reply.error)
    ensures reply.Completed? ==> FormatDigestResult(reply, parse) == parse(DigestText(reply.content))
    ensures FormatDigestResult(reply, parse).Failure? <==>
      reply.CompletionThrew? || parse(DigestText(reply.content)).Failure?
  {
  }

  /** Missing or empty content is read as "{}". */
  lemma FormatDigestDefault(content: Option<string>, parse: string -> Result<Json, Error>)
    requires !Truthy(content)
    ensures FormatDigestResult(Completed(content), parse) == parse("{}")
  {
    assert IsTrimmed("{}");
    TrimTrimmed("{}");
  }
}
