/** The station search of internal/database/network_read_repository.go: escapeLike, and what
    `name ILIKE '%' || escaped || '%' ESCAPE '\'` matches. */
module LikeSearch {

  const BACKSLASH: char := '\\'

  /** strings.ReplaceAll of one character. */
  function ReplaceAll(text: string, c: char, with: string): string {
    if text == "" then "" else (if text[0] == c then with else [text[0]]) + ReplaceAll(text[1..], c, with)
  }

  /** Three replacements, the backslash first. */
  function EscapeLike(value: string): string {
    ReplaceAll(ReplaceAll(ReplaceAll(value, BACKSLASH, [BACKSLASH, BACKSLASH]), '%', [BACKSLASH, '%']),
               '_', [BACKSLASH, '_'])
  }

  predicate IsSpecial(c: char) {
    c == BACKSLASH || c == '%' || c == '_'
  }

  function Escaped(c: char): string {
    if IsSpecial(c) then [BACKSLASH, c] else [c]
  }

  function EscapedAll(value: string): string {
    if value == "" then "" else Escaped(value[0]) + EscapedAll(value[1..])
  }

  lemma {:induction false} ReplaceAppend(a: string, b: string, c: char, with: string)
    ensures ReplaceAll(a + b, c, with) == ReplaceAll(a, c, with) + ReplaceAll(b, c, with)
  {
    if a == "" {
      assert a + b == b;
    } else {
      assert (a + b)[0] == a[0] && (a + b)[1..] == a[1..] + b;
      ReplaceAppend(a[1..], b, c, with);
    }
  }

  lemma ReplaceOne(a: char, c: char, with: string)
    ensures ReplaceAll([a], c, with) == if a == c then with else [a]
  {
    assert [a][1..] == "";
  }

  lemma ReplaceTwo(a: char, b: char, c: char, with: string)
    ensures ReplaceAll([a, b], c, with) == (if a == c then with else [a]) + (if b == c then with else [b])
  {
    assert [a, b] == [a] + [b];
    ReplaceAppend([a], [b], c, with);
    ReplaceOne(a, c, with);
    ReplaceOne(b, c, with);
  }

  /** One character goes through the three replacements as through one escape. */
  lemma EscapeOne(a: char)
    ensures EscapeLike([a]) == Escaped(a)
  {
    ReplaceOne(a, BACKSLASH, [BACKSLASH, BACKSLASH]);
    ReplaceOne(a, '%', [BACKSLASH, '%']);
    ReplaceOne(a, '_', [BACKSLASH, '_']);
    ReplaceTwo(BACKSLASH, a, '%', [BACKSLASH, '%']);
    ReplaceTwo(BACKSLASH, a, '_', [BACKSLASH, '_']);
  }

  /** The three sequential replacements are one escape per character: none touches what another put in. */
  lemma {:induction false} EscapeIsPerCharacter(value: string)
    ensures EscapeLike(value) == EscapedAll(value)
  {
    if value != "" {
      var head, rest := [value[0]], value[1..];
      assert value == head + rest;
      var a := ReplaceAll(head, BACKSLASH, [BACKSLASH, BACKSLASH]);
      var b := ReplaceAll(rest, BACKSLASH, [BACKSLASH, BACKSLASH]);
      ReplaceAppend(head, rest, BACKSLASH, [BACKSLASH, BACKSLASH]);
      ReplaceAppend(a, b, '%', [BACKSLASH, '%']);
      ReplaceAppend(ReplaceAll(a, '%', [BACKSLASH, '%']), ReplaceAll(b, '%', [BACKSLASH, '%']), '_', [BACKSLASH, '_']);
      EscapeOne(value[0]);
      EscapeIsPerCharacter(rest);
    }
  }

  // ---- LIKE ----

  /** Whether a LIKE pattern with backslash escapes matches; literals are compared after folding. */
  predicate Like(fold: char -> char, pattern: string, text: string)
    decreases |pattern|, |text|
  {
    if pattern == "" then text == ""
    else if pattern[0] == '%' then
      Like(fold, pattern[1..], text) || (text != "" && Like(fold, pattern, text[1..]))
    else if pattern[0] == '_' then
      text != "" && Like(fold, pattern[1..], text[1..])
    else if pattern[0] == BACKSLASH then
      |pattern| > 1 && text != "" && fold(pattern[1]) == fold(text[0]) && Like(fold, pattern[2..], text[1..])
    else
      text != "" && fold(pattern[0]) == fold(text[0]) && Like(fold, pattern[1..], text[1..])
  }

  /** An underscore stands for any one character, and an escaped character for itself. */
  lemma OneCharacter(fold: char -> char, c: char, text: string)
    ensures Like(fold, "_", text) <==> |text| == 1
    ensures Like(fold, [BACKSLASH, c], text) <==> |text| == 1 && fold(c) == fold(text[0])
  {
    assert "_"[1..] == "" && [BACKSLASH, c][2..] == "";
    if text != "" { assert text[1..] == "" <==> |text| == 1; }
  }

  predicate FoldedPrefix(fold: char -> char, value: string, text: string) {
    |value| <= |text| && forall i :: 0 <= i < |value| ==> fold(value[i]) == fold(text[i])
  }

  ghost predicate FoldedSubstring(fold: char -> char, value: string, text: string) {
    exists i :: 0 <= i <= |text| && FoldedPrefix(fold, value, text[i..])
  }

  lemma {:induction false} AnythingMatchesPercent(fold: char -> char, text: string)
    ensures Like(fold, "%", text)
  {
    if text != "" { AnythingMatchesPercent(fold, text[1..]); } else { assert "%"[1..] == ""; }
  }

  /** An escaped value matches itself and nothing else. */
  lemma {:induction false} EscapedIsLiteral(fold: char -> char, value: string, text: string)
    ensures Like(fold, EscapedAll(value) + "%", text) <==> FoldedPrefix(fold, value, text)
  {
    if value == "" {
      assert EscapedAll(value) + "%" == "%";
      AnythingMatchesPercent(fold, text);
    } else {
      var rest := value[1..];
      var pattern := EscapedAll(value) + "%";
      assert pattern == Escaped(value[0]) + (EscapedAll(rest) + "%");
      assert pattern[|Escaped(value[0])|..] == EscapedAll(rest) + "%";
      if text != "" {
        EscapedIsLiteral(fold, rest, text[1..]);
        if FoldedPrefix(fold, rest, text[1..]) && fold(value[0]) == fold(text[0]) {
          forall i | 0 <= i < |value| ensures fold(value[i]) == fold(text[i]) {
            if i > 0 { assert value[i] == rest[i - 1] && text[i] == text[1..][i - 1]; }
          }
        }
        if FoldedPrefix(fold, value, text) {
          forall i | 0 <= i < |rest| ensures fold(rest[i]) == fold(text[1..][i]) {
            assert rest[i] == value[i + 1] && text[1..][i] == text[i + 1];
          }
        }
      }
    }
  }

  /** A leading percent sign tries every position. */
  lemma {:induction false} PercentTriesEach(fold: char -> char, pattern: string, text: string)
    ensures Like(fold, "%" + pattern, text) <==> exists i :: 0 <= i <= |text| && Like(fold, pattern, text[i..])
  {
    assert ("%" + pattern)[1..] == pattern && text[0..] == text;
    if text != "" {
      PercentTriesEach(fold, pattern, text[1..]);
      forall i | 1 <= i <= |text| ensures text[i..] == text[1..][i - 1..] {}
      if i :| 0 <= i <= |text| - 1 && Like(fold, pattern, text[1..][i..]) {
        assert text[i + 1..] == text[1..][i..];
      }
      if i :| 1 <= i <= |text| && Like(fold, pattern, text[i..]) {
        assert Like(fold, pattern, text[1..][i - 1..]);
      }
    }
  }

  /** For every query and name, with any folding of case: the search finds the name exactly if the query, taken
      literally, occurs in it. */
  lemma SearchIsLiteral(fold: char -> char, query: string, name: string)
    ensures Like(fold, "%" + EscapeLike(query) + "%", name) <==> FoldedSubstring(fold, query, name)
  {
    EscapeIsPerCharacter(query);
    assert "%" + EscapeLike(query) + "%" == "%" + (EscapedAll(query) + "%");
    PercentTriesEach(fold, EscapedAll(query) + "%", name);
    forall i | 0 <= i <= |name|
      ensures Like(fold, EscapedAll(query) + "%", name[i..]) <==> FoldedPrefix(fold, query, name[i..])
    {
      EscapedIsLiteral(fold, query, name[i..]);
    }
  }
}
