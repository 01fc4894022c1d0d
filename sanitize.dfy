/**
 * The input sanitizer applied to the caller's table structure before it is
 * embedded in a prompt: three global regular-expression rewrites applied in
 * order, each modelled as a left-to-right scan that mirrors how a global
 * `replace` walks its input.
 *
 *   1. `<script\b ... </script>` blocks (ASCII case-insensitive) are deleted;
 *   2. every remaining `<...>` tag is deleted;
 *   3. every whitespace run becomes one space, and the ends are trimmed.
 */
module Sanitize {
  import opened Wrappers
  import opened Strings

  // ---------------------------------------------------------------------------
  // Character classes

  /** The JavaScript `\s` class, which is also the set `trim()` removes:
      WhiteSpace and LineTerminator code points (tab, line feed, vertical
      tab, form feed, carriage return, space, no-break space, the Unicode
      space separators, line and paragraph separators, and the byte order
      mark). */
  predicate IsSpace(c: char) {
    var n := c as int;
    || 0x09 <= n <= 0x0D || n == 0x20 || n == 0xA0 || n == 0x1680
    || 0x2000 <= n <= 0x200A || n == 0x2028 || n == 0x2029 || n == 0x202F
    || n == 0x205F || n == 0x3000 || n == 0xFEFF
  }

  /** The `\w` class that decides the `\b` word boundary (no `u` flag: ASCII only). */
  predicate IsWordChar(c: char) {
    ('a' <= c <= 'z') || ('A' <= c <= 'Z') || ('0' <= c <= '9') || c == '_'
  }

  /** Case folding for the ASCII patterns `<script` and `</script>`. Without
      the `u` flag, `i` compares characters by their upper-case forms but
      never maps a non-ASCII character to an ASCII one (`ſ` does not match
      `s`, nor `ı` match `i`), so a character matches an ASCII pattern
      character exactly when their ASCII lower-case forms agree. */
  function Lower(c: char): char {
    if 'A' <= c <= 'Z' then (c as int + 32) as char else c
  }

  // ---------------------------------------------------------------------------
  // Shapes of strings the sanitizer produces

  /** No `<` is followed, anywhere later, by a `>`: no `<...>` tag is left. */
  ghost predicate NoTag(s: string) {
    forall i, j | 0 <= i < j < |s| :: s[i] == '<' ==> s[j] != '>'
  }

  /** Positions `i` and `i + 1` both hold whitespace. */
  ghost predicate SpacePairAt(s: string, i: int) {
    0 <= i < |s| - 1 && IsSpace(s[i]) && IsSpace(s[i + 1])
  }

  /** Every whitespace character is a plain space and no two are adjacent. */
  ghost predicate Squashed(s: string) {
    && (forall i | 0 <= i < |s| :: IsSpace(s[i]) ==> s[i] == ' ')
    && (forall i :: !SpacePairAt(s, i))
  }

  /** Squashed, and neither starting nor ending with whitespace. */
  ghost predicate Normal(s: string) {
    Squashed(s) && (s == [] || (!IsSpace(s[0]) && !IsSpace(s[|s| - 1])))
  }

  /** The text with its whitespace removed: what the third rewrite must keep,
      in order. */
  function NonSpace(s: string): string {
    if s == [] then [] else (if IsSpace(s[0]) then [] else [s[0]]) + NonSpace(s[1..])
  }

  lemma {:induction false} NonSpaceAppend(a: string, b: string)
    ensures NonSpace(a + b) == NonSpace(a) + NonSpace(b)
    decreases |a|
  {
    if a == [] {
      assert a + b == b;
    } else {
      assert (a + b)[1..] == a[1..] + b;
      NonSpaceAppend(a[1..], b);
    }
  }

  lemma NoTagSuffix(s: string, k: nat)
    requires k <= |s|
    ensures NoTag(s) ==> NoTag(s[k..])
  {
    forall i, j | 0 <= i < j < |s| - k && NoTag(s)
      ensures s[k..][i] == '<' ==> s[k..][j] != '>'
    {
      assert s[k..][i] == s[k + i] && s[k..][j] == s[k + j];
    }
  }

  lemma NoTagSlice(s: string, a: nat, b: nat)
    requires a <= b <= |s|
    ensures NoTag(s) ==> NoTag(s[a..b])
  {
    forall i, j | 0 <= i < j < b - a && NoTag(s)
      ensures s[a..b][i] == '<' ==> s[a..b][j] != '>'
    {
      assert s[a..b][i] == s[a + i] && s[a..b][j] == s[a + j];
    }
  }

  lemma SquashedSlice(s: string, a: nat, b: nat)
    requires a <= b <= |s| && Squashed(s)
    ensures Squashed(s[a..b])
  {
    forall i | 0 <= i < b - a ensures IsSpace(s[a..b][i]) ==> s[a..b][i] == ' ' {
      assert s[a..b][i] == s[a + i];
    }
    forall i ensures !SpacePairAt(s[a..b], i) {
      if 0 <= i < b - a - 1 {
        assert s[a..b][i] == s[a + i] && s[a..b][i + 1] == s[a + i + 1];
        assert !SpacePairAt(s, a + i);
      }
    }
  }

  /** A character may be put in front of a string without a tag, unless it
      opens one that a later `>` would close. */
  lemma NoTagCons(c: char, rest: string)
    requires NoTag(rest) && (c == '<' ==> '>' !in rest)
    ensures NoTag([c] + rest)
  {
    var r := [c] + rest;
    forall i, j | 0 <= i < j < |r| && r[i] == '<' ensures r[j] != '>' {
      assert r[j] == rest[j - 1];
      if i > 0 {
        assert r[i] == rest[i - 1];
      }
    }
  }

  /** A character absent from a string is absent from each of its suffixes. */
  lemma AbsentFromSuffix(s: string, c: char, k: nat)
    requires k <= |s| && c !in s
    ensures c !in s[k..]
  {
    assert forall i | 0 <= i < |s| - k :: s[k..][i] == s[k + i];
  }

  /** In a string without a tag, nothing after a leading `<` is a `>`. */
  lemma NoTagHead(s: string)
    requires s != [] && s[0] == '<' && NoTag(s)
    ensures '>' !in s[1..]
  {
    forall k | 0 <= k < |s| - 1 ensures s[1..][k] != '>' {
      assert s[1..][k] == s[k + 1];
    }
  }

  // ---------------------------------------------------------------------------
  // Stage 1: /<script\b[^<]*(?:(?!<\/script>)<[^<]*)*<\/script>/gi -> ""

  const OPEN := "<script"
  const CLOSE := "</script>"

  /** `s[k..]` starts with `pat` (given in lower case), ASCII letters compared
      without regard to case. */
  predicate MatchesAt(s: string, k: nat, pat: string) {
    k + |pat| <= |s| && forall i | 0 <= i < |pat| :: Lower(s[k + i]) == pat[i]
  }

  /** A `<script` opening at `k` followed by a word boundary (`\b`). */
  predicate OpensScript(s: string, k: nat) {
    MatchesAt(s, k, OPEN) && (k + |OPEN| == |s| || !IsWordChar(s[k + |OPEN|]))
  }

  /** The first `</script>` (any case) at or after `k`: the regex's middle part
      may not step over a `<` that begins one, so a block ends at the first. */
  function FindClose(s: string, k: nat): (r: Option<nat>)
    decreases |s| - k
    ensures r.Some? ==> k <= r.value && MatchesAt(s, r.value, CLOSE)
    ensures forall j | k <= j && (r.None? || j < r.value) :: !MatchesAt(s, j, CLOSE)
  {
    if k + |CLOSE| > |s| then None
    else if MatchesAt(s, k, CLOSE) then Some(k)
    else FindClose(s, k + 1)
  }

  /** Where the script block opening at the front of `s` ends (one past its
      `</script>`), if a block opens there and is closed. */
  function ScriptBlockEnd(s: string): (r: Option<nat>)
    ensures r.Some? ==> |OPEN| + |CLOSE| <= r.value <= |s| && s[0] == '<' && s[r.value - 1] == '>'
  {
    if OpensScript(s, 0) then
      match FindClose(s, |OPEN|)
      case Some(j) =>
        assert Lower(s[0]) == OPEN[0] == '<';
        assert Lower(s[j + 8]) == CLOSE[8] == '>';
        Some(j + |CLOSE|)
      case None => None
    else None
  }

  /** The first rewrite: delete every closed script block, scanning left to right. */
  function StripScripts(s: string): (r: string)
    decreases |s|
    ensures |r| <= |s|
  {
    if s == [] then []
    else
      match ScriptBlockEnd(s)
      case Some(e) => StripScripts(s[e..])
      case None => [s[0]] + StripScripts(s[1..])
  }

  /** Text with no tag has no script block either, and passes stage 1 unchanged. */
  lemma {:induction false} StripScriptsKeepsTagless(s: string)
    ensures NoTag(s) ==> StripScripts(s) == s
    decreases |s|
  {
    if s != [] && NoTag(s) {
      var e := ScriptBlockEnd(s);
      if e.Some? {
        assert false;
      }
      NoTagSuffix(s, 1);
      StripScriptsKeepsTagless(s[1..]);
    }
  }

  // ---------------------------------------------------------------------------
  // Stage 2: /<[^>]*>/g -> ""

  /** The second rewrite: delete every `<` up to the first `>` after it. */
  function StripTags(s: string): (r: string)
    decreases |s|
    ensures |r| <= |s|
  {
    if s == [] then []
    else
      var close := if s[0] == '<' then IndexOf(s, '>', 1) else None;
      if close.Some? then StripTags(s[close.value + 1..])
      else [s[0]] + StripTags(s[1..])
  }

  /** Stage 2 only deletes: a character absent from its input is absent from
      its output. */
  lemma {:induction false} StripTagsKeepsCharacters(s: string, c: char)
    ensures c !in s ==> c !in StripTags(s)
    decreases |s|
  {
    if s != [] && c !in s {
      var close := if s[0] == '<' then IndexOf(s, '>', 1) else None;
      if close.Some? {
        AbsentFromSuffix(s, c, close.value + 1);
        StripTagsKeepsCharacters(s[close.value + 1..], c);
      } else {
        AbsentFromSuffix(s, c, 1);
        StripTagsKeepsCharacters(s[1..], c);
        assert StripTags(s) == [s[0]] + StripTags(s[1..]);
      }
    }
  }

  /** After stage 2 no `<` is followed anywhere later by a `>`. */
  lemma {:induction false} StripTagsLeavesNoTag(s: string)
    ensures NoTag(StripTags(s))
    decreases |s|
  {
    if s != [] {
      var close := if s[0] == '<' then IndexOf(s, '>', 1) else None;
      if close.Some? {
        StripTagsLeavesNoTag(s[close.value + 1..]);
      } else {
        StripTagsLeavesNoTag(s[1..]);
        if s[0] == '<' {
          forall k | 0 <= k < |s| - 1 ensures s[1..][k] != '>' {
            assert s[1..][k] == s[k + 1];
          }
          StripTagsKeepsCharacters(s[1..], '>');
        }
        NoTagCons(s[0], StripTags(s[1..]));
        assert StripTags(s) == [s[0]] + StripTags(s[1..]);
      }
    }
  }

  /** Text with no tag passes stage 2 unchanged. */
  lemma {:induction false} StripTagsKeepsTagless(s: string)
    ensures NoTag(s) ==> StripTags(s) == s
    decreases |s|
  {
    if s != [] && NoTag(s) {
      if s[0] == '<' {
        forall k | 1 <= k < |s| ensures s[k] != '>' {
          assert s[0] == '<';
        }
        assert IndexOf(s, '>', 1).None?;
      }
      NoTagSuffix(s, 1);
      StripTagsKeepsTagless(s[1..]);
    }
  }

  /** Stage 1 deletes a closed script block together with its contents: the
      block opens with `<script` and a word boundary and ends with the first
      `</script>` after the opening, the letters of either in any case. */
  lemma ScriptBlockRemoved(pre: string, block: string, post: string)
    requires NoBlockBefore(pre + block + post, |pre|)
    requires |block| >= |OPEN| + |CLOSE| && OpensScript(block, 0)
    requires MatchesAt(block, |block| - |CLOSE|, CLOSE)
    requires forall j | |OPEN| <= j < |block| - |CLOSE| :: !MatchesAt(block, j, CLOSE)
    ensures StripScripts(pre + block + post) == pre + StripScripts(post)
  {
    assert pre + block + post == pre + (block + post);
    TextBeforeScriptKept(pre, block + post);
    ScriptBlockAtFrontRemoved(block, post);
  }

  lemma ScriptBlockAtFrontRemoved(block: string, post: string)
    requires |block| >= |OPEN| + |CLOSE| && OpensScript(block, 0)
    requires MatchesAt(block, |block| - |CLOSE|, CLOSE)
    requires forall j | |OPEN| <= j < |block| - |CLOSE| :: !MatchesAt(block, j, CLOSE)
    ensures StripScripts(block + post) == StripScripts(post)
  {
    var s := block + post;
    MatchesInPrefix(block, post, 0, OPEN);
    assert s[|OPEN|] == block[|OPEN|];
    assert OpensScript(s, 0);
    var e := |block| - |CLOSE|;
    MatchesInPrefix(block, post, e, CLOSE);
    forall j | |OPEN| <= j < e ensures !MatchesAt(s, j, CLOSE) {
      MatchesInPrefix(block, post, j, CLOSE);
    }
    assert FindClose(s, |OPEN|) == Some(e);
    assert ScriptBlockEnd(s) == Some(|block|);
    assert s[|block|..] == post;
  }

  /** No closed script block starts in the first `n` characters of `s`:
      the regular expression matches nowhere there. */
  ghost predicate NoBlockBefore(s: string, n: nat) {
    forall i | 0 <= i < n && i <= |s| :: ScriptBlockEnd(s[i..]).None?
  }

  /** Text in which no closed script block starts (ordinary tags included)
      passes through stage 1 unchanged, whatever follows it. */
  lemma {:induction false} TextBeforeScriptKept(pre: string, s: string)
    requires NoBlockBefore(pre + s, |pre|)
    ensures StripScripts(pre + s) == pre + StripScripts(s)
    decreases |pre|
  {
    if pre != [] {
      var c, rest := pre[0], pre[1..];
      assert pre + s == [c] + (rest + s) && pre == [c] + rest;
      NoBlockBeforeShift(c, rest + s, |rest|);
      StripScriptsHead(c, rest + s);
      TextBeforeScriptKept(rest, s);
      ConsAppend(c, rest, StripScripts(s));
    } else {
      assert pre + s == s;
    }
  }

  lemma ConsAppend(c: char, a: string, b: string)
    ensures [c] + (a + b) == ([c] + a) + b
  {
  }

  /** A character where no block starts is copied through stage 1. */
  lemma StripScriptsHead(c: char, t: string)
    requires ScriptBlockEnd([c] + t).None?
    ensures StripScripts([c] + t) == [c] + StripScripts(t)
  {
    assert ([c] + t)[1..] == t;
  }

  /** Dropping the first character shifts where no block starts. */
  lemma NoBlockBeforeShift(c: char, t: string, n: nat)
    requires NoBlockBefore([c] + t, n + 1)
    ensures NoBlockBefore(t, n) && ScriptBlockEnd([c] + t).None?
  {
    assert ([c] + t)[0..] == [c] + t;
    forall i | 0 <= i < n && i <= |t| ensures ScriptBlockEnd(t[i..]).None? {
      assert t[i..] == ([c] + t)[i + 1..];
    }
  }

  /** No closed script block starts inside text without a `<`. */
  lemma PlainTextHasNoBlock(pre: string, s: string)
    requires '<' !in pre
    ensures NoBlockBefore(pre + s, |pre|)
  {
    forall i | 0 <= i < |pre| && i <= |pre + s| ensures ScriptBlockEnd((pre + s)[i..]).None? {
      assert (pre + s)[i..][0] == pre[i] != '<';
    }
  }

  /** A case-insensitive match inside `a` is one inside `a + b` too. */
  lemma MatchesInPrefix(a: string, b: string, k: nat, pat: string)
    requires k + |pat| <= |a|
    ensures MatchesAt(a + b, k, pat) <==> MatchesAt(a, k, pat)
  {
    forall i | k <= i < k + |pat| ensures (a + b)[i] == a[i] {
    }
  }

  /** Stage 2 deletes a tag from its `<` to the first `>` after it. */
  lemma TagRemoved(pre: string, body: string, post: string)
    requires '<' !in pre && '>' !in body
    ensures StripTags(pre + ['<'] + body + ['>'] + post) == pre + StripTags(post)
  {
    var tag := ['<'] + body + ['>'] + post;
    assert pre + ['<'] + body + ['>'] + post == pre + tag;
    TextBeforeTagKept(pre, tag);
    TagAtFrontRemoved(body, post);
  }

  /** Text without a `<` passes through stage 2 unchanged, whatever follows it. */
  lemma {:induction false} TextBeforeTagKept(pre: string, s: string)
    requires '<' !in pre
    ensures StripTags(pre + s) == pre + StripTags(s)
    decreases |pre|
  {
    if pre != [] {
      var c, rest := pre[0], pre[1..];
      assert pre + s == [c] + (rest + s);
      KeepsFirst(c, rest + s);
      TextBeforeTagKept(rest, s);
      assert [c] + (rest + StripTags(s)) == pre + StripTags(s);
    } else {
      assert pre + s == s;
    }
  }

  lemma TagAtFrontRemoved(body: string, post: string)
    requires '>' !in body
    ensures StripTags(['<'] + body + ['>'] + post) == StripTags(post)
  {
    var s := ['<'] + body + ['>'] + post;
    var e := |body| + 1;
    forall k | 1 <= k < e ensures s[k] != '>' {
      assert s[k] == body[k - 1];
    }
    assert s[e] == '>';
    assert IndexOf(s, '>', 1) == Some(e);
    assert s[e + 1..] == post;
  }

  lemma KeepsFirst(c: char, t: string)
    requires c != '<'
    ensures StripTags([c] + t) == [c] + StripTags(t)
  {
    assert ([c] + t)[1..] == t;
  }

  // ---------------------------------------------------------------------------
  // Stage 3: .replace(/\s+/g, " ").trim()

  /** The suffix left after dropping leading whitespace (`trimStart`): every
      character dropped is whitespace, and the first one kept is not. */
  function DropSpaces(s: string): (r: string)
    ensures |r| <= |s| && r == s[|s| - |r|..]
    ensures r == [] || !IsSpace(r[0])
    ensures forall k | 0 <= k < |s| - |r| :: IsSpace(s[k])
    ensures NonSpace(r) == NonSpace(s)
  {
    if s != [] && IsSpace(s[0]) then
      var t := DropSpaces(s[1..]);
      SpaceHeadDropped(s, t);
      t
    else
      s
  }

  /** One more leading whitespace character cut by `DropSpaces`. */
  lemma SpaceHeadDropped(s: string, t: string)
    requires s != [] && IsSpace(s[0])
    requires |t| <= |s| - 1 && t == s[1..][|s| - 1 - |t|..]
    requires forall k | 0 <= k < |s| - 1 - |t| :: IsSpace(s[1..][k])
    requires NonSpace(t) == NonSpace(s[1..])
    ensures t == s[|s| - |t|..]
    ensures forall k | 0 <= k < |s| - |t| :: IsSpace(s[k])
    ensures NonSpace(t) == NonSpace(s)
  {
    forall k | 0 < k < |s| - |t| ensures IsSpace(s[k]) {
      assert s[k] == s[1..][k - 1];
    }
  }

  /** The prefix left after dropping trailing whitespace (`trimEnd`): every
      character dropped is whitespace, and the last one kept is not. */
  function DropTrailingSpaces(s: string): (r: string)
    ensures |r| <= |s| && r == s[..|r|]
    ensures r == [] || !IsSpace(r[|r| - 1])
    ensures forall k | |r| <= k < |s| :: IsSpace(s[k])
    ensures NonSpace(r) == NonSpace(s)
  {
    if s != [] && IsSpace(s[|s| - 1]) then
      assert s == s[..|s| - 1] + [s[|s| - 1]];
      NonSpaceAppend(s[..|s| - 1], [s[|s| - 1]]);
      DropTrailingSpaces(s[..|s| - 1])
    else
      s
  }

  /** `trim()`: drop the whitespace at both ends. */
  function Trim(s: string): (r: string)
  {
    DropTrailingSpaces(DropSpaces(s))
  }

  /** A prefix of a suffix is a slice. */
  lemma PrefixOfSuffix(s: string, t: string, r: string, a: nat)
    requires a <= |s| && t == s[a..] && |r| <= |t| && r == t[..|r|]
    ensures a + |r| <= |s| && r == s[a..a + |r|]
  {
    forall k | 0 <= k < |r| ensures r[k] == s[a + k] {
      assert r[k] == t[k] == s[a..][k];
    }
  }

  /** Whitespace at the end of a suffix is whitespace at the end of the whole. */
  lemma SpacesAfterPrefixOfSuffix(s: string, t: string, n: nat, a: nat)
    requires a <= |s| && t == s[a..] && n <= |t|
    requires forall k | n <= k < |t| :: IsSpace(t[k])
    ensures forall k | a + n <= k < |s| :: IsSpace(s[k])
  {
    forall k | a + n <= k < |s| ensures IsSpace(s[k]) {
      assert s[k] == t[k - a];
    }
  }

  /** Where `trim()` cuts: the result is the slice from `a` on. */
  lemma TrimSlice(s: string) returns (a: nat)
    ensures a + |Trim(s)| <= |s| && Trim(s) == s[a..a + |Trim(s)|]
    ensures a == |s| - |DropSpaces(s)|
  {
    var t := DropSpaces(s);
    a := |s| - |t|;
    PrefixOfSuffix(s, t, DropTrailingSpaces(t), a);
  }

  /** What `trim()` cuts is whitespace. */
  lemma TrimCutsSpaces(s: string) returns (a: nat)
    ensures a + |Trim(s)| <= |s| && Trim(s) == s[a..a + |Trim(s)|]
    ensures forall k | 0 <= k < a :: IsSpace(s[k])
    ensures forall k | a + |Trim(s)| <= k < |s| :: IsSpace(s[k])
  {
    a := TrimSlice(s);
    var t := DropSpaces(s);
    SpacesAfterPrefixOfSuffix(s, t, |DropTrailingSpaces(t)|, a);
  }

  /** `trim()` leaves no whitespace at either end. */
  lemma TrimEdges(s: string)
    ensures Trim(s) == [] || (!IsSpace(Trim(s)[0]) && !IsSpace(Trim(s)[|Trim(s)| - 1]))
  {
    var t := DropSpaces(s);
    var r := DropTrailingSpaces(t);
    if r != [] {
      assert r[0] == t[0];
    }
  }

  /** Trailing whitespace is cut only from after the last non-whitespace text. */
  lemma {:induction false} DropTrailingSpacesKeepsHead(x: string, y: string)
    requires y != [] && !IsSpace(y[0])
    ensures DropTrailingSpaces(x + y) == x + DropTrailingSpaces(y)
    decreases |y|
  {
    if IsSpace(y[|y| - 1]) {
      assert (x + y)[..|x + y| - 1] == x + y[..|y| - 1];
      DropTrailingSpacesKeepsHead(x, y[..|y| - 1]);
    }
  }

  /** `trim()` cuts whitespace, and only whitespace, from both ends: it leaves
      a slice of its input with whitespace before and after it and none at
      its own ends, keeps every other character in order, and leaves input
      without whitespace at its ends unchanged. */
  lemma TrimTrims(s: string)
    ensures exists a, b | 0 <= a <= b <= |s| ::
      && Trim(s) == s[a..b]
      && (forall k | 0 <= k < a :: IsSpace(s[k]))
      && (forall k | b <= k < |s| :: IsSpace(s[k]))
    ensures Trim(s) == [] || (!IsSpace(Trim(s)[0]) && !IsSpace(Trim(s)[|Trim(s)| - 1]))
    ensures NonSpace(Trim(s)) == NonSpace(s)
    ensures s == [] || (!IsSpace(s[0]) && !IsSpace(s[|s| - 1])) ==> Trim(s) == s
  {
    var a := TrimCutsSpaces(s);
    TrimEdges(s);
    assert a <= a + |Trim(s)| <= |s|;
  }

  /** `replace(/\s+/g, " ")`: every maximal whitespace run becomes one space.
      The non-whitespace text is kept, in order. */
  function SquashRuns(s: string): (r: string)
    decreases |s|
    ensures s == [] <==> r == []
    ensures NonSpace(r) == NonSpace(s)
    ensures s != [] && !IsSpace(s[0]) ==> r[0] == s[0]
  {
    if s == [] then []
    else if IsSpace(s[0]) then
      var rest := SquashRuns(DropSpaces(s));
      assert ([' '] + rest)[1..] == rest;
      [' '] + rest
    else
      var rest := SquashRuns(s[1..]);
      assert ([s[0]] + rest)[1..] == rest;
      [s[0]] + rest
  }

  /** Dropping a whole whitespace run stops at the first character after it. */
  lemma {:induction false} DropSpacesRun(w: string, v: string)
    requires forall k | 0 <= k < |w| :: IsSpace(w[k])
    requires v == [] || !IsSpace(v[0])
    ensures DropSpaces(w + v) == v
    decreases |w|
  {
    if w == [] {
      assert w + v == v;
    } else {
      assert (w + v)[1..] == w[1..] + v;
      DropSpacesRun(w[1..], v);
    }
  }

  /** A whole whitespace run, of any length, followed by a non-whitespace
      character or by the end, becomes one space. */
  lemma SquashRunsRun(w: string, v: string)
    requires w != [] && forall k | 0 <= k < |w| :: IsSpace(w[k])
    requires v == [] || !IsSpace(v[0])
    ensures SquashRuns(w + v) == [' '] + SquashRuns(v)
  {
    DropSpacesRun(w, v);
    assert (w + v)[0] == w[0];
  }

  /** A non-whitespace character is copied, and the rewrite goes on after it. */
  lemma SquashRunsKeepsHead(c: char, t: string)
    requires !IsSpace(c)
    ensures SquashRuns([c] + t) == [c] + SquashRuns(t)
  {
    assert ([c] + t)[1..] == t;
  }

  /** A whitespace run after whitespace-free text becomes exactly one space,
      wherever the run stands. */
  lemma {:induction false} SquashRunsAfterText(u: string, w: string, v: string)
    requires forall k | 0 <= k < |u| :: !IsSpace(u[k])
    requires w != [] && forall k | 0 <= k < |w| :: IsSpace(w[k])
    requires v == [] || !IsSpace(v[0])
    ensures SquashRuns(u + w + v) == u + [' '] + SquashRuns(v)
    decreases |u|
  {
    if u == [] {
      assert u + w + v == w + v;
      SquashRunsRun(w, v);
    } else {
      var rest := u[1..];
      HeadSplit(u, w, v);
      SquashRunsKeepsHead(u[0], rest + w + v);
      NoSpaceInTail(u);
      SquashRunsAfterText(rest, w, v);
      HeadSplit(u, [' '], SquashRuns(v));
    }
  }

  /** Splitting the first character off a concatenation. */
  lemma HeadSplit(u: string, w: string, v: string)
    requires u != []
    ensures u + w + v == [u[0]] + (u[1..] + w + v)
  {
  }

  /** Whitespace-free text stays so without its first character. */
  lemma NoSpaceInTail(u: string)
    requires u != [] && forall k | 0 <= k < |u| :: !IsSpace(u[k])
    ensures forall k | 0 <= k < |u| - 1 :: !IsSpace(u[1..][k])
  {
    forall k | 0 <= k < |u| - 1 ensures !IsSpace(u[1..][k]) {
      assert u[1..][k] == u[k + 1];
    }
  }

  /** Squashing only replaces whitespace runs by a space: any other character
      absent from its input is absent from its output. */
  lemma {:induction false} SquashRunsKeepsCharacters(s: string, c: char)
    ensures c != ' ' && c !in s ==> c !in SquashRuns(s)
    decreases |s|
  {
    if s != [] && c != ' ' && c !in s {
      var t := if IsSpace(s[0]) then DropSpaces(s) else s[1..];
      AbsentFromSuffix(s, c, |s| - |t|);
      SquashRunsKeepsCharacters(t, c);
      assert SquashRuns(s) == [if IsSpace(s[0]) then ' ' else s[0]] + SquashRuns(t);
    }
  }

  /** A character may be put in front of a squashed string when it is not
      whitespace, or is a plain space in front of a non-space. */
  lemma SquashedCons(c: char, rest: string)
    requires Squashed(rest)
    requires IsSpace(c) ==> c == ' ' && (rest == [] || !IsSpace(rest[0]))
    ensures Squashed([c] + rest)
  {
    var r := [c] + rest;
    forall i | 0 <= i < |r| ensures IsSpace(r[i]) ==> r[i] == ' ' {
      if i > 0 {
        assert r[i] == rest[i - 1];
      }
    }
    forall i ensures !SpacePairAt(r, i) {
      if 0 < i < |r| - 1 {
        assert !SpacePairAt(rest, i - 1);
        assert r[i] == rest[i - 1] && r[i + 1] == rest[i];
      }
    }
  }

  /** After squashing, every whitespace character is a plain space and no two
      are adjacent. */
  lemma {:induction false} SquashRunsSquashes(s: string)
    ensures Squashed(SquashRuns(s))
    decreases |s|
  {
    if s != [] {
      var t := if IsSpace(s[0]) then DropSpaces(s) else s[1..];
      var c := if IsSpace(s[0]) then ' ' else s[0];
      SquashRunsSquashes(t);
      SquashedCons(c, SquashRuns(t));
      assert SquashRuns(s) == [c] + SquashRuns(t);
    }
  }

  /** Squashing whitespace cannot create a tag. */
  lemma {:induction false} SquashRunsKeepsNoTag(s: string)
    ensures NoTag(s) ==> NoTag(SquashRuns(s))
    decreases |s|
  {
    if s != [] && NoTag(s) {
      var t := if IsSpace(s[0]) then DropSpaces(s) else s[1..];
      var c := if IsSpace(s[0]) then ' ' else s[0];
      var rest := SquashRuns(t);
      NoTagSuffix(s, |s| - |t|);
      SquashRunsKeepsNoTag(t);
      if c == '<' {
        NoTagHead(s);
        SquashRunsKeepsCharacters(t, '>');
      }
      NoTagCons(c, rest);
      assert SquashRuns(s) == [c] + rest;
    }
  }

  /** A string whose whitespace is already single plain spaces is not changed. */
  lemma {:induction false} SquashRunsFixesSquashed(s: string)
    ensures Squashed(s) ==> SquashRuns(s) == s
    decreases |s|
  {
    if s != [] && Squashed(s) {
      var t := s[1..];
      SquashedSlice(s, 1, |s|);
      assert s[1..|s|] == t;
      SquashRunsFixesSquashed(t);
      if IsSpace(s[0]) {
        assert s[0] == ' ';
        assert !SpacePairAt(s, 0);
        assert [s[0]] + t == s;
        SquashRunsRun([s[0]], t);
      } else {
        assert SquashRuns(s) == [s[0]] + SquashRuns(t);
      }
      assert s == [s[0]] + t;
    }
  }

  /** Trimming a squashed text leaves it squashed, with no whitespace at its ends. */
  lemma TrimSquashed(t: string)
    requires Squashed(t)
    ensures Normal(Trim(t))
  {
    var a := TrimSlice(t);
    TrimEdges(t);
    NormalSlice(t, Trim(t), a);
  }

  /** A slice of squashed text with no whitespace at its ends is normal. */
  lemma NormalSlice(t: string, r: string, a: nat)
    requires Squashed(t) && a + |r| <= |t| && r == t[a..a + |r|]
    requires r == [] || (!IsSpace(r[0]) && !IsSpace(r[|r| - 1]))
    ensures Normal(r)
  {
    SquashedSlice(t, a, a + |r|);
  }

  /** Trimming cannot create a tag. */
  lemma TrimKeepsNoTag(t: string)
    requires NoTag(t)
    ensures NoTag(Trim(t))
  {
    var a := TrimSlice(t);
    NoTagSlice(t, a, a + |Trim(t)|);
  }

  /** The third rewrite. */
  function CollapseWhitespace(s: string): (r: string)
  {
    Trim(SquashRuns(s))
  }

  /** After the third rewrite the text is collapsed and trimmed, and it still
      has no tag if it had none. */
  lemma CollapseWhitespaceNormalizes(s: string)
    ensures Normal(CollapseWhitespace(s))
    ensures NoTag(s) ==> NoTag(CollapseWhitespace(s))
  {
    SquashRunsSquashes(s);
    TrimSquashed(SquashRuns(s));
    if NoTag(s) {
      SquashRunsKeepsNoTag(s);
      TrimKeepsNoTag(SquashRuns(s));
    }
  }

  /** Text that is already collapsed and trimmed passes the third rewrite unchanged. */
  lemma CollapseWhitespaceKeepsNormal(s: string)
    ensures Normal(s) ==> CollapseWhitespace(s) == s
  {
    SquashRunsFixesSquashed(s);
    TrimTrims(s);
  }

  /** The third rewrite changes only whitespace: the other characters are
      kept, in order. */
  lemma CollapseWhitespaceKeepsText(s: string)
    ensures NonSpace(CollapseWhitespace(s)) == NonSpace(s)
  {
    TrimTrims(SquashRuns(s));
  }

  /** An interior whitespace run after a word becomes exactly one space, and
      the rest of the text is collapsed on its own. */
  lemma CollapseWhitespaceAfterWord(u: string, w: string, v: string)
    requires u != [] && forall k | 0 <= k < |u| :: !IsSpace(u[k])
    requires w != [] && forall k | 0 <= k < |w| :: IsSpace(w[k])
    requires v != [] && !IsSpace(v[0])
    ensures CollapseWhitespace(u + w + v) == u + [' '] + CollapseWhitespace(v)
  {
    SquashRunsAfterText(u, w, v);
    var q := SquashRuns(v);
    assert DropSpaces(q) == q;
    assert DropSpaces(u + [' '] + q) == u + [' '] + q by {
      assert (u + [' '] + q)[0] == u[0];
    }
    DropTrailingSpacesKeepsHead(u + [' '], q);
  }

  /** `sanitizeInput`: the three rewrites in their source order. */
  function SanitizeInput(input: string): (r: string)
  {
    CollapseWhitespace(StripTags(StripScripts(input)))
  }

  // ---------------------------------------------------------------------------
  // Properties of the sanitizer

  /** What the sanitizer guarantees of every output: no tag survives, every
      whitespace character is a single plain space between non-space
      characters, and nothing is left at either end. */
  lemma SanitizeOutput(input: string)
    ensures NoTag(SanitizeInput(input))
    ensures Normal(SanitizeInput(input))
  {
    var t := StripTags(StripScripts(input));
    StripTagsLeavesNoTag(StripScripts(input));
    CollapseWhitespaceNormalizes(t);
  }

  /** The sanitizer leaves a string unchanged exactly when it already has that shape. */
  lemma SanitizeFixedPoint(s: string)
    ensures SanitizeInput(s) == s <==> NoTag(s) && Normal(s)
  {
    SanitizeOutput(s);
    StripScriptsKeepsTagless(s);
    StripTagsKeepsTagless(s);
    CollapseWhitespaceKeepsNormal(s);
  }

  /** Text without a tag loses nothing but whitespace: its other characters
      are all kept, in order. */
  lemma SanitizeKeepsText(s: string)
    ensures NoTag(s) ==> NonSpace(SanitizeInput(s)) == NonSpace(s)
  {
    StripScriptsKeepsTagless(s);
    StripTagsKeepsTagless(s);
    CollapseWhitespaceKeepsText(s);
  }

  /** In tagless text, a whitespace run after a word becomes exactly one
      space, and the rest is sanitized on its own. */
  lemma SanitizeAfterWord(u: string, w: string, v: string)
    requires u != [] && forall k | 0 <= k < |u| :: !IsSpace(u[k])
    requires w != [] && forall k | 0 <= k < |w| :: IsSpace(w[k])
    requires v != [] && !IsSpace(v[0])
    requires NoTag(u + w + v)
    ensures SanitizeInput(u + w + v) == u + [' '] + SanitizeInput(v)
  {
    StripScriptsKeepsTagless(u + w + v);
    StripTagsKeepsTagless(u + w + v);
    NoTagSuffix(u + w + v, |u + w|);
    assert (u + w + v)[|u + w|..] == v;
    StripScriptsKeepsTagless(v);
    StripTagsKeepsTagless(v);
    CollapseWhitespaceAfterWord(u, w, v);
  }

  /** The whitespace run inside a two-letter text such as "a  b" becomes one
      space. */
  lemma TwoSpacesBecomeOne(x: char, y: char)
    requires !IsSpace(x) && !IsSpace(y) && x != '<' && y != '<'
    ensures SanitizeInput([x, ' ', ' ', y]) == [x, ' ', y]
  {
    var u, w, v := [x], [' ', ' '], [y];
    assert u + w + v == [x, ' ', ' ', y] && u + [' '] + v == [x, ' ', y];
    NoOpenNoTag(u + w + v);
    SanitizeAfterWord(u, w, v);
    CharNormal(y);
    SanitizeFixedPoint(v);
  }

  /** Text without a `<` has no tag. */
  lemma NoOpenNoTag(s: string)
    requires '<' !in s
    ensures NoTag(s)
  {
  }

  /** One non-whitespace character is tagless and normal text. */
  lemma CharNormal(c: char)
    requires !IsSpace(c)
    ensures NoTag([c]) && Normal([c])
  {
    forall i ensures !SpacePairAt([c], i) {
    }
  }

  /** Sanitizing twice is the same as sanitizing once. */
  lemma SanitizeIdempotent(s: string)
    ensures SanitizeInput(SanitizeInput(s)) == SanitizeInput(s)
  {
    SanitizeOutput(s);
    SanitizeFixedPoint(SanitizeInput(s));
  }
}
