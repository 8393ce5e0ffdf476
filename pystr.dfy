/** The parts of Python's built-in `str` type that the reference roles use:
    `find` and `rfind` of one character, slicing with negative and
    out-of-range bounds, `strip()` without arguments, and `format` with the
    single keyword argument `repo`. Strings are sequences of code points. */
module PyStr {
  import opened Wrappers

  // ---------------------------------------------------------------- find/rfind

  /** `s.find(c)`: the index of the first `c` in `s`, or -1. */
  function Find(s: string, c: char): (r: int)
    ensures -1 <= r < |s|
    ensures r == -1 <==> c !in s
    ensures 0 <= r ==> s[r] == c && c !in s[..r]
  {
    if |s| == 0 then -1
    else if s[0] == c then 0
    else
      var k := Find(s[1..], c);
      if k == -1 then -1 else (assert s[..k + 1] == [s[0]] + s[1..][..k]; k + 1)
  }

  /** `s.rfind(c)`: the index of the last `c` in `s`, or -1. */
  function RFind(s: string, c: char): (r: int)
    ensures -1 <= r < |s|
    ensures r == -1 <==> c !in s
    ensures 0 <= r ==> s[r] == c && c !in s[r + 1..]
  {
    if |s| == 0 then -1
    else if s[|s| - 1] == c then |s| - 1
    else
      var k := RFind(s[..|s| - 1], c);
      assert s == s[..|s| - 1] + [s[|s| - 1]];
      if k >= 0 then assert s[k + 1..] == s[..|s| - 1][k + 1..] + [s[|s| - 1]]; k else k
  }

  // ------------------------------------------------------------------- slicing

  /** How Python turns a slice bound into an index of a sequence of length `n`:
      a negative bound counts from the end, and either kind is clamped to
      0..n. */
  function SliceIndex(i: int, n: nat): (k: nat)
    ensures k <= n
    ensures 0 <= i <= n ==> k == i
    ensures i < 0 <= n + i ==> k == n + i
    ensures n + i < 0 ==> k == 0
    ensures n < i ==> k == n
  {
    if i < 0 then (if i + n < 0 then 0 else i + n)
    else if i > n then n
    else i
  }

  /** `s[i:j]`: empty when the normalised bounds cross. */
  function Slice(s: string, i: int, j: int): (r: string)
    ensures 0 <= i <= j <= |s| ==> r == s[i..j]
    ensures 0 <= j <= i ==> r == []
    ensures j < 0 && 0 <= i <= |s| + j ==> r == s[i..|s| + j]
    ensures j < 0 && 0 <= i && |s| + j < i ==> r == []
  {
    var a := SliceIndex(i, |s|);
    var b := SliceIndex(j, |s|);
    if a <= b then s[a..b] else []
  }

  /** `s[i:]`. */
  function SliceFrom(s: string, i: int): (r: string)
    ensures 0 <= i <= |s| ==> r == s[i..]
    ensures |s| < i ==> r == []
  {
    Slice(s, i, |s|)
  }

  /** `suffix` is a suffix of `s`: the predicate the lemmas about where a
      `git` link's path comes from are stated with. */
  predicate EndsWith(s: string, suffix: string) {
    |suffix| <= |s| && s[|s| - |suffix|..] == suffix
  }

  // --------------------------------------------------------------------- strip

  /** The characters `str.isspace()` accepts, which are the ones `strip()`
      removes: the Unicode whitespace and the ASCII separators U+001C..U+001F. */
  predicate IsSpace(c: char): (b: bool)
    ensures b ==> c <= '\U{3000}'
    ensures ' ' <= c <= '~' ==> (b <==> c == ' ')
  {
    || ('\U{0009}' <= c <= '\U{000D}')
    || ('\U{001C}' <= c <= '\U{0020}')
    || c == '\U{0085}' || c == '\U{00A0}' || c == '\U{1680}'
    || ('\U{2000}' <= c <= '\U{200A}')
    || c == '\U{2028}' || c == '\U{2029}' || c == '\U{202F}' || c == '\U{205F}'
    || c == '\U{3000}'
  }

  /** The number of whitespace characters at the start of `s`. */
  function LeadingSpace(s: string): (n: nat)
    ensures n <= |s|
    ensures forall k :: 0 <= k < n ==> IsSpace(s[k])
    ensures n < |s| ==> !IsSpace(s[n])
  {
    if |s| > 0 && IsSpace(s[0]) then 1 + LeadingSpace(s[1..]) else 0
  }

  /** The number of whitespace characters at the end of `s`. */
  function TrailingSpace(s: string): (n: nat)
    ensures n <= |s|
    ensures forall k :: |s| - n <= k < |s| ==> IsSpace(s[k])
    ensures n < |s| ==> !IsSpace(s[|s| - 1 - n])
  {
    if |s| > 0 && IsSpace(s[|s| - 1]) then 1 + TrailingSpace(s[..|s| - 1]) else 0
  }

  /** `s.strip()`: `s` without its leading and trailing whitespace. The result
      is the stretch of `s` that starts at its first non-space character and
      ends at its last one. */
  function Strip(s: string): (r: string)
    ensures LeadingSpace(s) + |r| <= |s|
    ensures r == s[LeadingSpace(s)..LeadingSpace(s) + |r|]
    ensures forall k :: LeadingSpace(s) + |r| <= k < |s| ==> IsSpace(s[k])
    ensures r == [] <==> forall k :: 0 <= k < |s| ==> IsSpace(s[k])
    ensures r != [] ==> !IsSpace(r[0]) && !IsSpace(r[|r| - 1])
  {
    var t := s[LeadingSpace(s)..];
    t[..|t| - TrailingSpace(t)]
  }

  /** A string is stripped when it neither starts nor ends with whitespace. */
  predicate Stripped(s: string) {
    s == [] || (!IsSpace(s[0]) && !IsSpace(s[|s| - 1]))
  }

  /** `strip()` returns exactly the stripped strings unchanged, and so it is
      idempotent. */
  lemma StripFixpoint(s: string)
    ensures Strip(s) == s <==> Stripped(s)
    ensures Strip(Strip(s)) == Strip(s)
  {
    if Stripped(s) && s != [] {
      assert LeadingSpace(s) == 0;
      assert TrailingSpace(s) == 0;
    }
    var r := Strip(s);
    if r != [] {
      assert LeadingSpace(r) == 0;
      assert TrailingSpace(r) == 0;
    }
  }

  /** Appending one whitespace character to a stripped string is undone by
      `strip()`. */
  lemma StripTrailingSpace(s: string, c: char)
    requires Stripped(s)
    requires IsSpace(c)
    ensures Strip(s + [c]) == s
  {
    var t := s + [c];
    if s == [] {
      assert LeadingSpace(t) == 1;
    } else {
      assert LeadingSpace(t) == 0;
      assert t[|t| - 2] == s[|s| - 1];
      assert TrailingSpace(t) == 1;
      assert t[..|t| - 1] == s;
    }
  }

  // -------------------------------------------------------------------- format

  /** A string with no brace in it is copied through `format` unchanged. */
  predicate BraceFree(s: string) {
    '{' !in s && '}' !in s
  }

  /** `template.format(repo=repo)`. Doubled braces stand for one brace and
      the field `{repo}` is replaced by `repo`, which is not scanned again.
      Every other use of a brace gives `None`. Python raises on a single
      `}`, an unclosed `{`, a field with another name and a positional
      field, but accepts conversions, format specifications and attribute
      or index access on `repo`, which the model rejects as well. */
  function Format(template: string, repo: string): (r: Option<string>)
    ensures BraceFree(template) ==> r == Some(template)
    decreases |template|
  {
    if template == [] then Some([])
    else if template[0] == '{' then
      if |template| >= 2 && template[1] == '{' then
        Prepend("{", Format(template[2..], repo))
      else if |template| >= 6 && template[..6] == "{repo}" then
        Prepend(repo, Format(template[6..], repo))
      else None
    else if template[0] == '}' then
      if |template| >= 2 && template[1] == '}' then
        Prepend("}", Format(template[2..], repo))
      else None
    else
      assert BraceFree(template) ==> BraceFree(template[1..]);
      assert [template[0]] + template[1..] == template;
      Prepend([template[0]], Format(template[1..], repo))
  }

  function Prepend(p: string, r: Option<string>): Option<string> {
    match r
    case Some(s) => Some(p + s)
    case None => None
  }

  /** A character other than a brace is copied through. */
  lemma FormatLiteralChar(c: char, rest: string, repo: string)
    requires c != '{' && c != '}'
    ensures Format([c] + rest, repo) == Prepend([c], Format(rest, repo))
  {
    assert ([c] + rest)[1..] == rest;
  }

  lemma PrependTwice(a: string, b: string, x: Option<string>)
    ensures Prepend(a, Prepend(b, x)) == Prepend(a + b, x)
  {
    if x.Some? { assert a + (b + x.value) == (a + b) + x.value; }
  }

  /** A brace-free prefix is copied through, whatever follows it. */
  lemma {:induction false} FormatLiteralPrefix(p: string, rest: string, repo: string)
    requires BraceFree(p)
    ensures Format(p + rest, repo) == Prepend(p, Format(rest, repo))
    decreases |p|
  {
    if p == [] {
      assert p + rest == rest;
      if Format(rest, repo).Some? { assert [] + Format(rest, repo).value == Format(rest, repo).value; }
    } else {
      var tail := p[1..] + rest;
      assert p + rest == [p[0]] + tail;
      assert p[0] in p;
      assert BraceFree(p[1..]) by {
        forall k | 0 <= k < |p| - 1 ensures p[1..][k] == p[k + 1] { }
      }
      calc {
        Format(p + rest, repo);
        Format([p[0]] + tail, repo);
        { FormatLiteralChar(p[0], tail, repo); }
        Prepend([p[0]], Format(tail, repo));
        { FormatLiteralPrefix(p[1..], rest, repo); }
        Prepend([p[0]], Prepend(p[1..], Format(rest, repo)));
        { PrependTwice([p[0]], p[1..], Format(rest, repo)); assert [p[0]] + p[1..] == p; }
        Prepend(p, Format(rest, repo));
      }
    }
  }

  /** A template holding one `{repo}` field between brace-free text is the
      text with `repo` in the field's place. */
  lemma FormatOneField(p: string, q: string, repo: string)
    requires BraceFree(p) && BraceFree(q)
    ensures Format(p + "{repo}" + q, repo) == Some(p + repo + q)
  {
    var t := "{repo}" + q;
    assert p + "{repo}" + q == p + t;
    assert t[0] == '{' && t[1] == 'r';
    assert t[..6] == "{repo}";
    assert t[6..] == q;
    assert Format(t, repo) == Some(repo + q);
    FormatLiteralPrefix(p, t, repo);
    assert p + (repo + q) == p + repo + q;
  }

  /** What a template author writes to get literal text: every brace doubled. */
  function EscapeBraces(s: string): (r: string)
    ensures BraceFree(s) ==> r == s
  {
    if s == [] then []
    else if s[0] == '{' || s[0] == '}' then [s[0], s[0]] + EscapeBraces(s[1..])
    else
      assert BraceFree(s) ==> BraceFree(s[1..]);
      assert [s[0]] + s[1..] == s;
      [s[0]] + EscapeBraces(s[1..])
  }

  /** `format` undoes `EscapeBraces`, whatever `repo` is. */
  lemma {:induction false} FormatEscaped(s: string, repo: string)
    ensures Format(EscapeBraces(s), repo) == Some(s)
  {
    if s != [] {
      FormatEscaped(s[1..], repo);
      var e := EscapeBraces(s);
      if s[0] == '{' || s[0] == '}' {
        assert e[2..] == EscapeBraces(s[1..]);
      } else {
        assert e[1..] == EscapeBraces(s[1..]);
      }
      assert [s[0]] + s[1..] == s;
    }
  }

  // ------------------------------------------------------ rejected templates

  /** The templates `format(repo=...)` accepts: a sequence of characters
      other than braces, doubled braces and `{repo}` fields. */
  predicate WellFormedTemplate(t: string)
    decreases |t|
  {
    || t == []
    || (t[0] != '{' && t[0] != '}' && WellFormedTemplate(t[1..]))
    || (|t| >= 2 && (t[..2] == "{{" || t[..2] == "}}") && WellFormedTemplate(t[2..]))
    || (|t| >= 6 && t[..6] == "{repo}" && WellFormedTemplate(t[6..]))
  }

  /** `format` succeeds exactly on the well-formed templates. */
  lemma {:induction false} FormatDefinedIff(t: string, repo: string)
    ensures Format(t, repo).Some? <==> WellFormedTemplate(t)
    decreases |t|
  {
    if t != [] {
      if t[0] == '{' {
        if |t| >= 2 && t[1] == '{' {
          FormatDefinedIff(t[2..], repo);
          assert t[..2] == "{{";
          assert !(|t| >= 6 && t[..6] == "{repo}") by {
            if |t| >= 6 { assert t[..6][1] == '{'; }
          }
        } else if |t| >= 6 && t[..6] == "{repo}" {
          FormatDefinedIff(t[6..], repo);
          assert t[1] == 'r';
          assert t[..2] != "{{" && t[..2] != "}}";
        } else {
          assert |t| >= 2 ==> t[..2] != "{{" && t[..2] != "}}";
        }
      } else if t[0] == '}' {
        if |t| >= 2 && t[1] == '}' {
          FormatDefinedIff(t[2..], repo);
          assert t[..2] == "}}";
          assert !(|t| >= 6 && t[..6] == "{repo}");
        } else {
          assert |t| >= 2 ==> t[..2] != "{{" && t[..2] != "}}";
          assert !(|t| >= 6 && t[..6] == "{repo}");
        }
      } else {
        FormatDefinedIff(t[1..], repo);
        assert |t| >= 2 ==> t[..2] != "{{" && t[..2] != "}}";
        assert !(|t| >= 6 && t[..6] == "{repo}");
      }
    }
  }

  /** A `}` that is not doubled makes `format` raise, wherever it stands
      after brace-free text. */
  lemma FormatRejectsLoneClose(p: string, rest: string, repo: string)
    requires BraceFree(p)
    requires rest == [] || rest[0] != '}'
    ensures Format(p + "}" + rest, repo) == None
  {
    var t := "}" + rest;
    assert p + "}" + rest == p + t;
    FormatLiteralPrefix(p, t, repo);
    assert t[0] == '}' && (|t| >= 2 ==> t[1] == rest[0]);
  }

  /** A `{` that neither is doubled nor opens the field `{repo}` makes
      `format` raise: an unclosed `{`, a positional field `{}` or a field
      with another name. */
  lemma FormatRejectsLoneOpen(p: string, rest: string, repo: string)
    requires BraceFree(p)
    requires rest == [] || (rest[0] != '{' && !(|rest| >= 5 && rest[..5] == "repo}"))
    ensures Format(p + "{" + rest, repo) == None
  {
    var t := "{" + rest;
    assert p + "{" + rest == p + t;
    FormatLiteralPrefix(p, t, repo);
    assert t[0] == '{' && (|t| >= 2 ==> t[1] == rest[0]);
    assert |t| >= 6 ==> t[..6][1..] == rest[..5];
  }
}
