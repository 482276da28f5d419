/** The pieces of Go's `strings`, `unicode` and `strconv` packages that the
    helpers of cmd/util.go use, over strings seen as sequences of runes. Case
    mapping is restricted to ASCII; white space is Go's `unicode.IsSpace`. */
module Strings {

  /** `unicode.ToLower`, restricted to ASCII letters. */
  function ToLowerRune(c: char): char {
    if 'A' <= c <= 'Z' then (c as int + 32) as char else c
  }

  /** `unicode.ToTitle`, restricted to ASCII letters. */
  function ToTitleRune(c: char): char {
    if 'a' <= c <= 'z' then (c as int - 32) as char else c
  }

  /** `strings.ToLower`. */
  function ToLower(s: string): (r: string)
    ensures |r| == |s|
    ensures forall i | 0 <= i < |s| :: r[i] == ToLowerRune(s[i])
  {
    seq(|s|, i requires 0 <= i < |s| => ToLowerRune(s[i]))
  }

  /** `unicode.IsSpace`: the Latin-1 spaces and the other runes with the
      Unicode White_Space property. */
  predicate IsSpace(c: char) {
    || ('\t' <= c <= '\r')                        // U+0009 to U+000D
    || c == ' ' || c == '\U{0085}' || c == '\U{00A0}'
    || c == '\U{1680}'
    || ('\U{2000}' <= c <= '\U{200A}')
    || c == '\U{2028}' || c == '\U{2029}' || c == '\U{202F}' || c == '\U{205F}' || c == '\U{3000}'
  }

  predicate AllSpace(s: string) {
    forall i | 0 <= i < |s| :: IsSpace(s[i])
  }

  /** `strings.TrimLeft` of the white space: the suffix left after the
      leading white space, which starts with a non-space if it is not empty. */
  function TrimLeftSpace(s: string): (r: string)
  {
    if |s| > 0 && IsSpace(s[0]) then TrimLeftSpace(s[1..]) else s
  }

  /** `strings.TrimRight` of the white space: the prefix left before the
      trailing white space, which ends with a non-space if it is not empty. */
  function TrimRightSpace(s: string): (r: string)
  {
    if |s| > 0 && IsSpace(s[|s| - 1]) then TrimRightSpace(s[..|s| - 1]) else s
  }

  /** `strings.TrimSpace`. */
  function TrimSpace(s: string): (r: string)
  {
    TrimRightSpace(TrimLeftSpace(s))
  }

  /** What `TrimLeftSpace` leaves is a suffix of `s`, what it drops is all
      white space, and what it leaves does not start with white space. */
  lemma {:induction false} TrimLeftSpaceDropsSpace(s: string)
    ensures var r := TrimLeftSpace(s);
      |r| <= |s| && r == s[|s| - |r|..] && AllSpace(s[..|s| - |r|]) && (r == "" || !IsSpace(r[0]))
  {
    if |s| > 0 && IsSpace(s[0]) {
      TrimLeftSpaceDropsSpace(s[1..]);
      var r := TrimLeftSpace(s);
      assert s[..|s| - |r|] == [s[0]] + s[1..][..|s| - 1 - |r|];
    }
  }

  /** What `TrimRightSpace` leaves is a prefix of `s`, what it drops is all
      white space, and what it leaves does not end with white space. */
  lemma {:induction false} TrimRightSpaceDropsSpace(s: string)
    ensures var r := TrimRightSpace(s);
      |r| <= |s| && r == s[..|r|] && AllSpace(s[|r|..]) && (r == "" || !IsSpace(r[|r| - 1]))
  {
    if |s| > 0 && IsSpace(s[|s| - 1]) {
      var t := s[..|s| - 1];
      TrimRightSpaceDropsSpace(t);
      var r := TrimRightSpace(s);
      assert s[|r|..] == t[|r|..] + [s[|s| - 1]];
    }
  }

  /** `strings.TrimSpace(s)` is the middle of `s` between white-space
      margins, and neither starts nor ends with white space. */
  lemma TrimSpaceDropsSpace(s: string)
    ensures var i := |s| - |TrimLeftSpace(s)|; var r := TrimSpace(s);
      0 <= i && i + |r| <= |s| && r == s[i..i + |r|]
      && AllSpace(s[..i]) && AllSpace(s[i + |r|..])
      && (r == "" || (!IsSpace(r[0]) && !IsSpace(r[|r| - 1])))
  {
    var l := TrimLeftSpace(s);
    var i := |s| - |l|;
    var r := TrimSpace(s);
    TrimLeftSpaceDropsSpace(s);
    TrimRightSpaceDropsSpace(l);
    assert r == TrimRightSpace(l);
    assert |r| <= |l| && r == l[..|r|] && AllSpace(l[|r|..]);
    assert l == s[i..];
    assert s[i + |r|..] == l[|r|..];
  }

  /** `strings.Split(s, sep)` for a one-rune separator: the pieces between
      the separators, one more piece than there are separators. */
  function Split(s: string, sep: char): (r: seq<string>)
    ensures |r| >= 1
  {
    if s == [] then [""]
    else
      var rest := Split(s[1..], sep);
      if s[0] == sep then [""] + rest
      else [[s[0]] + rest[0]] + rest[1..]
  }

  /** `strings.Join(words, sep)` for a one-rune separator. */
  function Join(words: seq<string>, sep: char): string {
    if |words| == 0 then ""
    else if |words| == 1 then words[0]
    else words[0] + [sep] + Join(words[1..], sep)
  }

  /** `strings.Join(words, "")`. */
  function Concat(words: seq<string>): string {
    if words == [] then "" else words[0] + Concat(words[1..])
  }

  function Count(s: string, c: char): nat {
    if s == [] then 0 else (if s[0] == c then 1 else 0) + Count(s[1..], c)
  }

  function SumLengths(words: seq<string>): nat {
    if words == [] then 0 else |words[0]| + SumLengths(words[1..])
  }

  /** Joining the pieces with the separator gives back the string. */
  lemma {:induction false} JoinSplit(s: string, sep: char)
    ensures Join(Split(s, sep), sep) == s
  {
    if s != [] {
      var rest := Split(s[1..], sep);
      JoinSplit(s[1..], sep);
      if s[0] == sep {
        assert Split(s, sep) == [""] + rest;
        assert ([""] + rest)[1..] == rest;
      } else {
        var words := Split(s, sep);
        assert words == [[s[0]] + rest[0]] + rest[1..];
        if |rest| == 1 {
          assert s == [s[0]] + s[1..];
        } else {
          assert words[1..] == rest[1..];
          assert s == [s[0]] + s[1..];
        }
      }
    }
  }

  /** No piece contains the separator, and together the pieces hold every
      other rune of the string. */
  lemma {:induction false} SplitPieces(s: string, sep: char)
    ensures forall i | 0 <= i < |Split(s, sep)| :: sep !in Split(s, sep)[i]
    ensures |Split(s, sep)| == Count(s, sep) + 1
    ensures SumLengths(Split(s, sep)) == |s| - Count(s, sep)
  {
    if s != [] {
      SplitPieces(s[1..], sep);
      var rest := Split(s[1..], sep);
      if s[0] == sep {
        assert Split(s, sep) == [""] + rest;
        assert ([""] + rest)[1..] == rest;
      } else {
        var words := Split(s, sep);
        assert words[1..] == rest[1..];
        assert SumLengths(rest) == |rest[0]| + SumLengths(rest[1..]);
        forall i | 0 <= i < |words| ensures sep !in words[i] {
          if i == 0 {
            assert words[0] == [s[0]] + rest[0];
          } else {
            assert words[i] == rest[i];
          }
        }
      }
    }
  }

  /** A string without the separator is a single piece. */
  lemma {:induction false} SplitWithoutSeparator(w: string, sep: char)
    requires sep !in w
    ensures Split(w, sep) == [w]
  {
    if w != [] {
      SplitWithoutSeparator(w[1..], sep);
      assert w == [w[0]] + w[1..];
    }
  }

  /** Appending a separator and a word without separators adds one piece. */
  lemma {:induction false} SplitAppend(a: string, sep: char, w: string)
    requires sep !in w
    ensures Split(a + [sep] + w, sep) == Split(a, sep) + [w]
  {
    var s := a + [sep] + w;
    if a == [] {
      assert s == [sep] + w;
      assert s[1..] == w;
      SplitWithoutSeparator(w, sep);
    } else {
      assert s[0] == a[0];
      assert s[1..] == a[1..] + [sep] + w;
      SplitAppend(a[1..], sep, w);
      var restA := Split(a[1..], sep);
      assert Split(s[1..], sep) == restA + [w];
      if a[0] != sep {
        assert (restA + [w])[0] == restA[0];
        assert (restA + [w])[1..] == restA[1..] + [w];
      }
    }
  }

  /** The concatenation is as long as the words together. */
  lemma {:induction false} ConcatLength(words: seq<string>)
    ensures |Concat(words)| == SumLengths(words)
  {
    if words != [] {
      ConcatLength(words[1..]);
    }
  }

  /** A rune in none of the words is not in their concatenation. */
  lemma {:induction false} ConcatAvoids(words: seq<string>, c: char)
    requires forall i | 0 <= i < |words| :: c !in words[i]
    ensures c !in Concat(words)
  {
    if words != [] {
      ConcatAvoids(words[1..], c);
    }
  }

  lemma {:induction false} ConcatAppend(words: seq<string>, w: string)
    ensures Concat(words + [w]) == Concat(words) + w
  {
    if words != [] {
      assert (words + [w])[1..] == words[1..] + [w];
      ConcatAppend(words[1..], w);
    }
  }
}
