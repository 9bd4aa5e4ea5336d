/** Escaping of text for Telegram's MarkdownV2 parse mode
    (packages/cli/src/helpers/escapeMarkdown.ts). */
module Markdown {
  import opened Common

  /** `SPECIAL_CHARS`, in the order the loop visits them: the backslash
      comes first. */
  const SpecialChars: seq<char> :=
    ['\\', '_', '*', '[', ']', '(', ')', '~', '`', '>', '<', '&', '#', '+', '-', '=', '|', '{', '}', '.', '!']

  predicate IsSpecial(c: char)
  {
    c in SpecialChars
  }

  /** A character escaped against the characters `cs`: a backslash in front
      if it is one of them. */
  function EscapeCharAmong(c: char, cs: seq<char>): string
  {
    if c in cs then ['\\', c] else [c]
  }

  function EscapeAmong(s: string, cs: seq<char>): string
  {
    if s == [] then [] else EscapeCharAmong(s[0], cs) + EscapeAmong(s[1..], cs)
  }

  /** The intended meaning of `escapeMarkdown`: each special character gets
      one backslash in front, every other character is kept. */
  function Escape(s: string): string
  {
    EscapeAmong(s, SpecialChars)
  }

  /** `String.prototype.replaceAll` with a one-character pattern. */
  function ReplaceAll(s: string, x: char, replacement: string): string
  {
    if s == [] then [] else (if s[0] == x then replacement else [s[0]]) + ReplaceAll(s[1..], x, replacement)
  }

  lemma {:induction false} ReplaceAllConcat(a: string, b: string, x: char, replacement: string)
    ensures ReplaceAll(a + b, x, replacement) == ReplaceAll(a, x, replacement) + ReplaceAll(b, x, replacement)
  {
    if a == [] {
      assert a + b == b;
    } else {
      assert (a + b)[1..] == a[1..] + b;
      ReplaceAllConcat(a[1..], b, x, replacement);
    }
  }

  /** One pass of the loop: replacing `x` by backslash-`x` in text already
      escaped against `done` escapes it against `done + [x]`, provided `x`
      was not handled before and, if `x` is the backslash, nothing was
      handled before (otherwise the backslashes inserted earlier would be
      escaped again). */
  lemma {:induction false} ReplaceStep(s: string, done: seq<char>, x: char)
    requires x !in done
    requires x == '\\' ==> done == []
    ensures ReplaceAll(EscapeAmong(s, done), x, ['\\', x]) == EscapeAmong(s, done + [x])
  {
    if s != [] {
      var head := EscapeCharAmong(s[0], done);
      ReplaceAllConcat(head, EscapeAmong(s[1..], done), x, ['\\', x]);
      ReplaceStep(s[1..], done, x);
      if s[0] in done {
        assert ReplaceAll(head, x, ['\\', x]) == head by {
          assert head == ['\\'] + [s[0]];
          ReplaceAllConcat(['\\'], [s[0]], x, ['\\', x]);
        }
      } else {
        assert ReplaceAll(head, x, ['\\', x]) == EscapeCharAmong(s[0], done + [x]) by {
          assert head == [s[0]];
          assert ReplaceAll(head, x, ['\\', x]) == (if s[0] == x then ['\\', x] else [s[0]]) + ReplaceAll([], x, ['\\', x]);
        }
      }
    }
  }

  lemma SpecialCharsDistinct()
    ensures Distinct(SpecialChars)
  {
    forall i, j | 0 <= i < j < |SpecialChars| ensures SpecialChars[i] != SpecialChars[j] {
      var ci, cj := SpecialChars[i] as int, SpecialChars[j] as int;
    }
  }

  lemma {:induction false} DistinctNotInPrefix(s: seq<char>, k: nat)
    requires Distinct(s) && k < |s|
    ensures s[k] !in s[..k]
  {
  }

  /** Pass `k` of the loop takes text escaped against the first `k` special
      characters to text escaped against the first `k + 1`: its character
      was not handled before, and the backslash comes first. */
  lemma PassStep(text: string, k: nat)
    requires k < |SpecialChars|
    ensures ReplaceAll(EscapeAmong(text, SpecialChars[..k]), SpecialChars[k], ['\\', SpecialChars[k]])
            == EscapeAmong(text, SpecialChars[..k + 1])
  {
    var ch := SpecialChars[k];
    SpecialCharsDistinct();
    DistinctNotInPrefix(SpecialChars, k);
    if ch == '\\' {
      assert SpecialChars[0] == '\\';
    }
    ReplaceStep(text, SpecialChars[..k], ch);
    assert SpecialChars[..k] + [ch] == SpecialChars[..k + 1];
  }

  /** packages/cli/src/helpers/escapeMarkdown.ts: one `replaceAll` pass per
      special character, in the order of `SPECIAL_CHARS`. The passes
      together escape each special character exactly once. */
  method EscapeMarkdown(text: string) returns (r: string)
    ensures r == Escape(text)
  {
    r := text;
    assert EscapeAmong(text, []) == text by { EscapeNothing(text); }
    for k := 0 to |SpecialChars|
      invariant r == EscapeAmong(text, SpecialChars[..k])
    {
      var ch := SpecialChars[k];
      PassStep(text, k);
      r := ReplaceAll(r, ch, ['\\', ch]);
    }
    assert SpecialChars[..|SpecialChars|] == SpecialChars;
  }

  lemma {:induction false} EscapeNothing(s: string)
    ensures EscapeAmong(s, []) == s
  {
    if s != [] {
      EscapeNothing(s[1..]);
    }
  }

  /** Number of special characters in `s`. */
  function SpecialCount(s: string): nat
  {
    if s == [] then 0 else (if IsSpecial(s[0]) then 1 else 0) + SpecialCount(s[1..])
  }

  /** Escaping adds exactly one character per special character. */
  lemma {:induction false} EscapeLength(s: string)
    ensures |Escape(s)| == |s| + SpecialCount(s)
  {
    if s != [] {
      EscapeLength(s[1..]);
    }
  }

  /** Text without special characters, the empty string included, comes
      back unchanged. */
  lemma {:induction false} EscapePlainText(s: string)
    requires forall i :: 0 <= i < |s| ==> !IsSpecial(s[i])
    ensures Escape(s) == s
  {
    if s != [] {
      EscapePlainText(s[1..]);
    }
  }

  /** Escaping works character by character, so the original characters
      keep their relative order. */
  lemma {:induction false} EscapeConcat(a: string, b: string)
    ensures Escape(a + b) == Escape(a) + Escape(b)
  {
    if a == [] {
      assert a + b == b;
    } else {
      assert (a + b)[1..] == a[1..] + b;
      EscapeConcat(a[1..], b);
    }
  }

  /** Drops each backslash that stands in front of a special character. */
  function Unescape(t: string): string
  {
    if |t| >= 2 && t[0] == '\\' && IsSpecial(t[1]) then [t[1]] + Unescape(t[2..])
    else if t == [] then []
    else [t[0]] + Unescape(t[1..])
  }

  /** Removing the inserted backslashes recovers the input exactly. */
  lemma {:induction false} UnescapeEscape(s: string)
    ensures Unescape(Escape(s)) == s
  {
    if s != [] {
      var e := Escape(s);
      UnescapeEscape(s[1..]);
      if IsSpecial(s[0]) {
        assert e == ['\\', s[0]] + Escape(s[1..]);
        assert e[2..] == Escape(s[1..]);
      } else {
        assert e == [s[0]] + Escape(s[1..]);
        assert e[1..] == Escape(s[1..]);
        assert s[0] != '\\';
      }
    }
  }

  /** Why the backslash must come first: handling `_` before the backslash
      would escape the backslash inserted in front of `_` a second time. */
  lemma BackslashOrderMatters()
    ensures Escape("_") == "\\_"
    ensures ReplaceAll(ReplaceAll("_", '_', "\\_"), '\\', "\\\\") == "\\\\_"
  {
    assert ReplaceAll("_", '_', "\\_") == "\\_" + ReplaceAll([], '_', "\\_");
    assert "\\_"[1..] == "_";
    assert ReplaceAll("\\_", '\\', "\\\\") == "\\\\" + ReplaceAll("_", '\\', "\\\\");
    assert ReplaceAll("_", '\\', "\\\\") == "_" + ReplaceAll([], '\\', "\\\\");
  }
}
