/**
 * Turning the model's free-text reply into JSON. The JSON grammar itself is
 * not modelled: `JSON.parse` is a parameter, a total function from text to
 * either a parsed value or the syntax error it throws. What is modelled is the
 * fallback: when the whole reply does not parse, the greedy match of
 * `/\[[\s\S]*\]/` -- from the first `[` to the last `]` after it -- is parsed
 * instead.
 */
module Extraction {
  import opened Wrappers
  import opened Strings

  /** A parsed JSON value; only arrays matter to the caller, the rest is kept coarse. */
  datatype Json =
    | JArray(items: seq<Json>)
    | JObject(members: seq<(string, Json)>)
    | JScalar(literal: string)

  /** What `JSON.parse` does with a text: a value, or a thrown SyntaxError and its message. */
  datatype ParseOutcome = Parsed(value: Json) | Unparsable(message: string)

  /** There is a `[` with a `]` somewhere after it. */
  ghost predicate HasBracketPair(text: string) {
    exists i, j | 0 <= i < j < |text| :: text[i] == '[' && text[j] == ']'
  }

  /** `text.match(/\[[\s\S]*\]/)`: the leftmost match starts at the first `[`
      (if that one has no `]` after it, no later `[` has one either), and the
      greedy middle runs to the last `]`. */
  function BracketSpan(text: string): (r: Option<string>)
    ensures r.Some? <==> HasBracketPair(text)
    ensures r.Some? ==> exists i, j | 0 <= i < j < |text| ::
      && text[i] == '[' && text[j] == ']'
      && r.value == text[i..j + 1]
      && '[' !in text[..i]
      && ']' !in text[j + 1..]
  {
    match (IndexOf(text, '[', 0), LastIndexOf(text, ']'))
    case (Some(i), Some(j)) =>
      if i < j then
        Some(text[i..j + 1])
      else
        None
    case _ => None
  }

  /** A reply that wraps a bracketed text in prose (or code fences) with no `[`
      before it and no `]` after it yields exactly that bracketed text. */
  lemma WrappedSpanRecovered(pre: string, body: string, post: string)
    requires |body| >= 2 && body[0] == '[' && body[|body| - 1] == ']'
    requires '[' !in pre && ']' !in post
    ensures BracketSpan(pre + body + post) == Some(body)
  {
    var text := pre + body + post;
    var i, j := |pre|, |pre| + |body| - 1;
    assert text[i] == '[' && text[j] == ']';
    assert text[..i] == pre && text[j + 1..] == post;
    assert IndexOf(text, '[', 0) == Some(i);
    assert LastIndexOf(text, ']') == Some(j);
    assert text[i..j + 1] == body;
  }
}
