/** The .NET string operations the header parsers rely on: `Trim()`,
    `TrimStart(c)`, `TrimEnd(c)` and `Split(c)`, as pure functions on `seq<char>`. */
module Text {

  /** `char.IsWhiteSpace`: the Unicode White_Space characters. */
  predicate IsWhiteSpace(c: char)
  {
    || ('\t' <= c <= '\r')
    || c == ' '
    || c == '\U{85}'
    || c == '\U{A0}'
    || c == '\U{1680}'
    || ('\U{2000}' <= c <= '\U{200A}')
    || c == '\U{2028}'
    || c == '\U{2029}'
    || c == '\U{202F}'
    || c == '\U{205F}'
    || c == '\U{3000}'
  }

  predicate IsQuote(c: char)
  {
    c == '"'
  }

  /** Removes every leading character that `drop` accepts: the longest such prefix goes. */
  function TrimStart(s: string, drop: char -> bool): (r: string)
    ensures |r| <= |s| && r == s[|s| - |r|..]
    ensures forall i :: 0 <= i < |s| - |r| ==> drop(s[i])
    ensures r == [] || !drop(r[0])
    decreases |s|
  {
    if |s| > 0 && drop(s[0]) then TrimStart(s[1..], drop) else s
  }

  /** Removes every trailing character that `drop` accepts: the longest such suffix goes. */
  function TrimEnd(s: string, drop: char -> bool): (r: string)
    ensures |r| <= |s| && r == s[..|r|]
    ensures forall i :: |r| <= i < |s| ==> drop(s[i])
    ensures r == [] || !drop(r[|r| - 1])
    decreases |s|
  {
    if |s| > 0 && drop(s[|s| - 1]) then TrimEnd(s[..|s| - 1], drop) else s
  }

  /** `s.Trim()`: leading and trailing white space removed. */
  function Trim(s: string): (r: string)
    ensures Trimmed(s, r, IsWhiteSpace)
  {
    TrimBoth(s, IsWhiteSpace)
  }

  /** `v.TrimStart('"').TrimEnd('"')`: every leading and every trailing quote removed. */
  function StripQuotes(v: string): (r: string)
    ensures Trimmed(v, r, IsQuote)
  {
    TrimBoth(v, IsQuote)
  }

  /** `r` is a slice of `s` with only `drop` characters cut from each end, and neither
      end of `r` can be dropped. */
  ghost predicate Trimmed(s: string, r: string, drop: char -> bool)
  {
    && (r == [] || (!drop(r[0]) && !drop(r[|r| - 1])))
    && exists a :: 0 <= a <= |s| - |r| && r == s[a..][..|r|]
                   && (forall i :: 0 <= i < a ==> drop(s[i]))
                   && (forall i :: a + |r| <= i < |s| ==> drop(s[i]))
  }

  function TrimBoth(s: string, drop: char -> bool): (r: string)
    ensures Trimmed(s, r, drop)
  {
    TrimBothSlice(s, drop);
    TrimEnd(TrimStart(s, drop), drop)
  }

  lemma TrimBothSlice(s: string, drop: char -> bool)
    ensures Trimmed(s, TrimEnd(TrimStart(s, drop), drop), drop)
  {
    var t := TrimStart(s, drop);
    var r := TrimEnd(t, drop);
    var a := |s| - |t|;
    assert t == s[a..];
    assert r == s[a..][..|r|];
    forall i | a + |r| <= i < |s|
      ensures drop(s[i])
    {
      assert s[i] == t[i - a];
    }
  }

  /** The ordinal upper-case mapping of the ASCII letters; every other character maps to
      itself. */
  function AsciiUpper(c: char): (u: char)
  {
    if 'a' <= c <= 'z' then (c as int - 32) as char else c
  }

  /** `string.Equals(s, t, StringComparison.OrdinalIgnoreCase)` over ASCII case. */
  predicate EqualsIgnoreCase(s: string, t: string)
  {
    |s| == |t| && forall i :: 0 <= i < |s| ==> AsciiUpper(s[i]) == AsciiUpper(t[i])
  }

  /** The index of the first `c` in `s`, or `|s|` when there is none. */
  function FirstIndex(s: string, c: char): (i: nat)
    ensures i <= |s|
  {
    if s == [] || s[0] == c then 0 else 1 + FirstIndex(s[1..], c)
  }

  /** No `c` comes before the index found, and one sits at it unless it is the end. */
  lemma {:induction false} FirstIndexFinds(s: string, c: char)
    ensures forall k :: 0 <= k < FirstIndex(s, c) ==> s[k] != c
    ensures FirstIndex(s, c) < |s| ==> s[FirstIndex(s, c)] == c
    decreases |s|
  {
    if s != [] && s[0] != c {
      FirstIndexFinds(s[1..], c);
      forall k | 0 <= k < FirstIndex(s, c)
        ensures s[k] != c
      {
        if k > 0 {
          assert s[k] == s[1..][k - 1];
        }
      }
    }
  }

  /** `parts[0] + sep + parts[1] + ... + sep + parts[n-1]`. */
  function Join(parts: seq<string>, sep: char): (s: string)
    requires |parts| >= 1
  {
    if |parts| == 1 then parts[0] else parts[0] + [sep] + Join(parts[1..], sep)
  }

  /** `s.Split(sep)`: the pieces between separators, empty pieces kept. */
  function Split(s: string, sep: char): (parts: seq<string>)
    ensures |parts| >= 1
    decreases |s|
  {
    var i := FirstIndex(s, sep);
    if i == |s| then [s] else [s[..i]] + Split(s[i + 1..], sep)
  }

  /** No piece of a split holds the separator, and joining the pieces gives the text back. */
  lemma {:induction false} JoinSplit(s: string, sep: char)
    ensures forall k :: 0 <= k < |Split(s, sep)| ==> sep !in Split(s, sep)[k]
    ensures Join(Split(s, sep), sep) == s
    decreases |s|
  {
    var i := FirstIndex(s, sep);
    FirstIndexFinds(s, sep);
    if i < |s| {
      var rest := s[i + 1..];
      JoinSplit(rest, sep);
      var parts := Split(s, sep);
      assert parts == [s[..i]] + Split(rest, sep);
      assert parts[1..] == Split(rest, sep);
      assert s == s[..i] + [sep] + rest;
      forall k | 0 <= k < |parts|
        ensures sep !in parts[k]
      {
        if k > 0 {
          assert parts[k] == Split(rest, sep)[k - 1];
        }
      }
    }
  }

  /** The first piece of a split is the text before the first separator; the second,
      when there is one, is the text between the first and the second. */
  lemma SplitHead(s: string, sep: char)
    ensures var i := FirstIndex(s, sep);
      && Split(s, sep)[0] == s[..i]
      && (|Split(s, sep)| > 1 <==> i < |s|)
      && (i < |s| ==> Split(s, sep)[1] == s[i + 1..][..FirstIndex(s[i + 1..], sep)])
  {
    var i := FirstIndex(s, sep);
    if i < |s| {
      var rest := s[i + 1..];
      assert Split(s, sep) == [s[..i]] + Split(rest, sep);
      assert Split(rest, sep)[0] == rest[..FirstIndex(rest, sep)];
    }
  }

  lemma FirstIndexAfterFreePrefix(a: string, sep: char, b: string)
    requires sep !in a
    ensures FirstIndex(a + [sep] + b, sep) == |a|
  {
    var s := a + [sep] + b;
    FirstIndexFinds(s, sep);
    assert s[|a|] == sep;
    forall k | 0 <= k < |a|
      ensures s[k] != sep
    {
      assert s[k] == a[k] && a[k] in a;
    }
  }

  /** Splitting undoes joining pieces that contain no separator. */
  lemma {:induction false} SplitJoin(parts: seq<string>, sep: char)
    requires |parts| >= 1
    requires forall k :: 0 <= k < |parts| ==> sep !in parts[k]
    ensures Split(Join(parts, sep), sep) == parts
    decreases |parts|
  {
    if |parts| == 1 {
      SplitNoSeparator(parts[0], sep);
    } else {
      var rest := Join(parts[1..], sep);
      assert sep !in parts[0];
      SplitFirst(parts[0], sep, rest);
      SplitJoin(parts[1..], sep);
      assert parts == [parts[0]] + parts[1..];
    }
  }

  /** Text without the separator splits into itself alone. */
  lemma SplitNoSeparator(s: string, sep: char)
    requires sep !in s
    ensures Split(s, sep) == [s]
  {
    FirstIndexFinds(s, sep);
    forall k | 0 <= k < |s|
      ensures s[k] != sep
    {
      assert s[k] in s;
    }
  }

  /** A piece without the separator in it splits off as the first piece. */
  lemma SplitFirst(a: string, sep: char, b: string)
    requires sep !in a
    ensures Split(a + [sep] + b, sep) == [a] + Split(b, sep)
  {
    var s := a + [sep] + b;
    FirstIndexAfterFreePrefix(a, sep, b);
    assert s[..|a|] == a;
    assert s[|a| + 1..] == b;
  }

  /** A string that neither starts nor ends with white space is left alone by `Trim`. */
  lemma TrimUnchanged(s: string)
    requires s == [] || (!IsWhiteSpace(s[0]) && !IsWhiteSpace(s[|s| - 1]))
    ensures Trim(s) == s
  {
    TrimStartNothing(s, IsWhiteSpace);
    TrimEndNothing(s, IsWhiteSpace);
  }

  lemma TrimStartNothing(s: string, drop: char -> bool)
    requires s == [] || !drop(s[0])
    ensures TrimStart(s, drop) == s
  {
  }

  lemma TrimEndNothing(s: string, drop: char -> bool)
    requires s == [] || !drop(s[|s| - 1])
    ensures TrimEnd(s, drop) == s
  {
  }

  /** Wrapping in quotes adds no character other than the quote. */
  lemma NotInQuoted(v: string, c: char)
    requires c !in v && !IsQuote(c)
    ensures c !in "\"" + v + "\""
  {
  }

  /** A value with only an opening quote loses that quote and nothing else. */
  lemma StripQuotesOfOpenQuoted(v: string)
    requires v == [] || (!IsQuote(v[0]) && !IsQuote(v[|v| - 1]))
    ensures StripQuotes("\"" + v) == v
  {
    assert "\"" + v == ['"'] + v;
    TrimOpened(v, '"', IsQuote);
  }

  /** Removing quotes from a value wrapped in one pair of quotes gives the value back
      when the value neither starts nor ends with a quote. */
  lemma StripQuotesOfQuoted(v: string)
    requires v == [] || (!IsQuote(v[0]) && !IsQuote(v[|v| - 1]))
    ensures StripQuotes("\"" + v + "\"") == v
  {
    assert "\"" + v + "\"" == ['"'] + (v + ['"']);
    TrimEnclosed(v, '"', IsQuote);
  }

  lemma TrimOpened(v: string, c: char, drop: char -> bool)
    requires drop(c) && (v == [] || (!drop(v[0]) && !drop(v[|v| - 1])))
    ensures TrimEnd(TrimStart([c] + v, drop), drop) == v
  {
    assert ([c] + v)[1..] == v;
    TrimStartNothing(v, drop);
    TrimEndNothing(v, drop);
  }

  lemma TrimEnclosed(v: string, c: char, drop: char -> bool)
    requires drop(c) && (v == [] || (!drop(v[0]) && !drop(v[|v| - 1])))
    ensures TrimEnd(TrimStart([c] + (v + [c]), drop), drop) == v
  {
    var w := v + [c];
    assert ([c] + w)[1..] == w;
    if v == [] {
      assert w == [c] && w[1..] == [];
    } else {
      assert w[0] == v[0];
      TrimStartNothing(w, drop);
      assert w[..|w| - 1] == v;
      TrimEndNothing(v, drop);
    }
  }

  /** Four pieces joined: each separated from the next by one separator. */
  lemma JoinFour(p0: string, p1: string, p2: string, p3: string, sep: char)
    ensures Join([p0, p1, p2, p3], sep) == p0 + [sep] + p1 + [sep] + p2 + [sep] + p3
  {
    var parts := [p0, p1, p2, p3];
    assert parts[1..] == [p1, p2, p3] && [p1, p2, p3][1..] == [p2, p3] && [p2, p3][1..] == [p3];
    assert Join([p3], sep) == p3;
    var j2 := Join([p2, p3], sep);
    assert j2 == p2 + [sep] + Join([p3], sep);
    var j1 := Join([p1, p2, p3], sep);
    assert j1 == p1 + [sep] + j2;
    assert Join(parts, sep) == p0 + [sep] + j1;
  }
}
