/**
 * The parts of Python's `str` that the map loader relies on:
 * `str.isspace`, `str.strip()`, `str.split(sep)` and its inverse `sep.join`.
 */
module PyText {

  /**
   * The blanks: the six ASCII ones of C's `isspace` (tab to carriage return, and
   * space) and the non-ASCII characters for which Python's `str.isspace()` holds.
   */
  predicate IsBlank(c: char) {
    '\t' <= c <= '\r' || c == ' ' || c == '\U{85}' || c == '\U{A0}' || c == '\U{1680}' ||
    '\U{2000}' <= c <= '\U{200A}' || c == '\U{2028}' || c == '\U{2029}' ||
    c == '\U{202F}' || c == '\U{205F}' || c == '\U{3000}'
  }

  /** The ASCII information separators U+001C to U+001F. */
  predicate IsSeparator(c: char) {
    '\U{1C}' <= c <= '\U{1F}'
  }

  /** The characters for which Python's `str.isspace()` holds. */
  predicate IsSpace(c: char) {
    IsBlank(c) || IsSeparator(c)
  }

  /** No character of `s` is whitespace. */
  predicate NoSpace(s: string) {
    forall i :: 0 <= i < |s| ==> !IsSpace(s[i])
  }

  /** `s.lstrip(chars)`: leading characters in `chars` are removed. */
  function TrimStart(s: string, chars: char -> bool): (r: string)
    ensures |r| <= |s|
    ensures r != [] ==> !chars(r[0])
  {
    if s != [] && chars(s[0]) then TrimStart(s[1..], chars) else s
  }

  /** `s.rstrip(chars)`: trailing characters in `chars` are removed. */
  function TrimEnd(s: string, chars: char -> bool): (r: string)
    ensures |r| <= |s|
    ensures r != [] ==> !chars(r[|r| - 1])
  {
    if s != [] && chars(s[|s| - 1]) then TrimEnd(s[..|s| - 1], chars) else s
  }

  /** `s.strip(chars)`: characters in `chars` are removed from both ends. */
  function StripChars(s: string, chars: char -> bool): (r: string)
    ensures |r| <= |s|
  {
    TrimEnd(TrimStart(s, chars), chars)
  }

  /** `s.strip()`: whitespace is removed from both ends. */
  function Strip(s: string): (r: string)
    ensures |r| <= |s|
  {
    StripChars(s, IsSpace)
  }

  /** `lstrip` removes exactly the longest prefix of characters in `chars`. */
  lemma {:induction false} TrimStartSlice(s: string, chars: char -> bool)
    ensures TrimStart(s, chars) == s[|s| - |TrimStart(s, chars)|..]
    ensures forall i :: 0 <= i < |s| - |TrimStart(s, chars)| ==> chars(s[i])
  {
    if s != [] && chars(s[0]) {
      TrimStartSlice(s[1..], chars);
    }
  }

  /** `rstrip` removes exactly the longest suffix of characters in `chars`. */
  lemma {:induction false} TrimEndSlice(s: string, chars: char -> bool)
    ensures TrimEnd(s, chars) == s[..|TrimEnd(s, chars)|]
    ensures forall i :: |TrimEnd(s, chars)| <= i < |s| ==> chars(s[i])
  {
    if s != [] && chars(s[|s| - 1]) {
      TrimEndSlice(s[..|s| - 1], chars);
    }
  }

  /**
   * `strip` keeps the slice of `s` that starts at `|s| - |s.lstrip()|`; everything it
   * removes is in `chars`, and what it keeps neither starts nor ends with such a character.
   */
  lemma StripSlice(s: string, chars: char -> bool)
    ensures var i := |s| - |TrimStart(s, chars)|; var r := StripChars(s, chars);
      i + |r| <= |s| && r == s[i..i + |r|] &&
      (forall k :: 0 <= k < i ==> chars(s[k])) &&
      (forall k :: i + |r| <= k < |s| ==> chars(s[k])) &&
      (r != [] ==> !chars(r[0]) && !chars(r[|r| - 1]))
  {
    TrimStartSlice(s, chars);
    var a := TrimStart(s, chars);
    TrimEndSlice(a, chars);
    var i := |s| - |a|;
    var r := StripChars(s, chars);
    assert r == s[i..i + |r|] by {
      assert a == s[i..] && r == a[..|r|];
    }
    forall k | i + |r| <= k < |s| ensures chars(s[k]) {
      assert s[k] == a[k - i];
    }
    if r != [] {
      assert r[0] == a[0];
    }
  }

  /** Text without whitespace is left as it is by stripping any set of whitespace. */
  lemma StripNoSpace(s: string, chars: char -> bool)
    requires NoSpace(s) && forall c :: chars(c) ==> IsSpace(c)
    ensures StripChars(s, chars) == s
  {
    StripSlice(s, chars);
    if s != [] {
      assert !IsSpace(s[0]) && !IsSpace(s[|s| - 1]);
    }
  }

  /** Every character that survives `strip` was in the text. */
  lemma StripKeepsChars(s: string, chars: char -> bool)
    ensures forall k :: 0 <= k < |StripChars(s, chars)| ==> StripChars(s, chars)[k] in s
  {
    StripSlice(s, chars);
  }

  /** `sep.join(fields)`. */
  function Join(fields: seq<string>, sep: char): (r: string)
    ensures |fields| == 1 ==> r == fields[0]
  {
    if |fields| == 0 then ""
    else if |fields| == 1 then fields[0]
    else fields[0] + [sep] + Join(fields[1..], sep)
  }

  /** `s.split(sep)` for a one-character separator: every occurrence separates two fields. */
  function Split(s: string, sep: char): (r: seq<string>)
    ensures |r| >= 1
  {
    if s == [] then [""]
    else
      var rest := Split(s[1..], sep);
      if s[0] == sep then [""] + rest
      else [[s[0]] + rest[0]] + rest[1..]
  }

  /** No field holds the separator, and joining the fields with it gives back the text. */
  lemma {:induction false} SplitSpec(s: string, sep: char)
    ensures forall i :: 0 <= i < |Split(s, sep)| ==> sep !in Split(s, sep)[i]
    ensures Join(Split(s, sep), sep) == s
  {
    if s != [] {
      var rest := Split(s[1..], sep);
      SplitSpec(s[1..], sep);
      if s[0] == sep {
        assert ([""] + rest)[1..] == rest;
        assert Join([""] + rest, sep) == [sep] + Join(rest, sep);
        assert [s[0]] + s[1..] == s;
      } else {
        JoinConsChar(s[0], rest, sep);
        assert [s[0]] + s[1..] == s;
        var r := Split(s, sep);
        forall i | 0 <= i < |r| ensures sep !in r[i] {
          if i > 0 {
            assert r[i] == rest[i];
          }
        }
      }
    }
  }

  /** Prepending a character to the first field prepends it to the joined text. */
  lemma JoinConsChar(c: char, fields: seq<string>, sep: char)
    requires |fields| >= 1
    ensures Join([[c] + fields[0]] + fields[1..], sep) == [c] + Join(fields, sep)
  {
    var g := [[c] + fields[0]] + fields[1..];
    assert g[1..] == fields[1..];
  }

  /** A text without the separator is one field. */
  lemma {:induction false} SplitNoSep(f: string, sep: char)
    requires sep !in f
    ensures Split(f, sep) == [f]
  {
    if f != [] {
      SplitNoSep(f[1..], sep);
      assert [f[0]] + f[1..] == f;
    }
  }

  /** A field followed by the separator splits off as the first field. */
  lemma {:induction false} SplitFieldThenSep(f: string, t: string, sep: char)
    requires sep !in f
    ensures Split(f + [sep] + t, sep) == [f] + Split(t, sep)
  {
    if f == [] {
      assert f + [sep] + t == [sep] + t;
      assert ([sep] + t)[1..] == t;
    } else {
      assert (f + [sep] + t)[1..] == f[1..] + [sep] + t;
      SplitFieldThenSep(f[1..], t, sep);
      assert [f[0]] + f[1..] == f;
    }
  }

  /** Splitting undoes joining, for at least one field and fields free of the separator. */
  lemma {:induction false} SplitJoin(fields: seq<string>, sep: char)
    requires |fields| >= 1
    requires forall i :: 0 <= i < |fields| ==> sep !in fields[i]
    ensures Split(Join(fields, sep), sep) == fields
  {
    if |fields| == 1 {
      SplitNoSep(fields[0], sep);
    } else {
      SplitJoin(fields[1..], sep);
      SplitFieldThenSep(fields[0], Join(fields[1..], sep), sep);
      assert [fields[0]] + fields[1..] == fields;
    }
  }

  /** Joining one more empty field appends one separator. */
  lemma {:induction false} JoinEmptyLast(fields: seq<string>, sep: char)
    requires |fields| >= 1
    ensures Join(fields + [""], sep) == Join(fields, sep) + [sep]
  {
    if |fields| == 1 {
      assert (fields + [""])[1..] == [""];
    } else {
      assert (fields + [""])[1..] == fields[1..] + [""];
      JoinEmptyLast(fields[1..], sep);
    }
  }

  /** A trailing separator adds exactly one empty field at the end. */
  lemma SplitTrailingSep(s: string, sep: char)
    ensures Split(s + [sep], sep) == Split(s, sep) + [""]
  {
    var fs := Split(s, sep);
    SplitSpec(s, sep);
    JoinEmptyLast(fs, sep);
    SplitJoin(fs + [""], sep);
  }

  /** Joining separator-free, space-free fields with a non-space separator gives space-free text. */
  lemma {:induction false} JoinNoSpace(fields: seq<string>, sep: char)
    requires !IsSpace(sep)
    requires forall i :: 0 <= i < |fields| ==> NoSpace(fields[i])
    ensures NoSpace(Join(fields, sep))
  {
    if |fields| > 1 {
      JoinNoSpace(fields[1..], sep);
      var t := Join(fields[1..], sep);
      assert Join(fields, sep) == fields[0] + [sep] + t;
      assert NoSpace(fields[0]);
      forall i | 0 <= i < |fields[0] + [sep] + t|
        ensures !IsSpace((fields[0] + [sep] + t)[i])
      {
        if i < |fields[0]| {
        } else if i == |fields[0]| {
        } else {
          assert (fields[0] + [sep] + t)[i] == t[i - |fields[0]| - 1];
        }
      }
    }
  }
}
