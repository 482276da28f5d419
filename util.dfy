/** The string and collection helpers of the command layer (cmd/util.go). */
module Util {
  import opened Wrappers
  import opened Errors
  import opened Strings

  // ---------------------------------------------------------------------
  // firstNonEmptyString

  /** The first non-empty argument, or "" when every argument is empty. */
  method FirstNonEmptyString(ss: seq<string>) returns (r: string)
    ensures r == "" <==> forall i | 0 <= i < |ss| :: ss[i] == ""
    ensures r != "" ==> exists i | 0 <= i < |ss| :: ss[i] == r && forall j | 0 <= j < i :: ss[j] == ""
  {
    for i := 0 to |ss|
      invariant forall j | 0 <= j < i :: ss[j] == ""
    {
      if ss[i] != "" {
        return ss[i];
      }
    }
    return "";
  }

  // ---------------------------------------------------------------------
  // isWellKnownAbbreviation

  const WellKnownAbbreviations: set<string> := {"ANSI", "CPE", "ID", "URL"}

  function IsWellKnownAbbreviation(word: string): (b: bool)
    ensures b <==> word == "ANSI" || word == "CPE" || word == "ID" || word == "URL"
  {
    word in WellKnownAbbreviations
  }

  // ---------------------------------------------------------------------
  // parseBool

  /** The spellings `strconv.ParseBool` accepts. */
  const StrconvTrueWords: set<string> := {"1", "t", "T", "TRUE", "true", "True"}
  const StrconvFalseWords: set<string> := {"0", "f", "F", "FALSE", "false", "False"}

  /** `strconv.ParseBool`. */
  function StrconvParseBool(str: string): (r: Result<bool, Error>)
    ensures r.Success? <==> str in StrconvTrueWords + StrconvFalseWords
    ensures r.Success? ==> r.value == (str in StrconvTrueWords)
    ensures r.Failure? ==> r.error == ParseBoolSyntax(str)
  {
    if str in StrconvTrueWords then Success(true)
    else if str in StrconvFalseWords then Success(false)
    else Failure(ParseBoolSyntax(str))
  }

  /** strconv's value is decided by the first character of the spelling. */
  lemma StrconvValueIsFirstCharacter(str: string)
    ensures StrconvParseBool(str).Success? ==> 0 < |str| && (StrconvParseBool(str).value <==> str[0] in "1tT")
  {
  }

  const ExtraFalseWords: set<string> := {"n", "no", "off"}
  const ExtraTrueWords: set<string> := {"on", "y", "yes"}

  lemma ExtraWordsDisjoint()
    ensures ExtraFalseWords * ExtraTrueWords == {}
  {
    assert "no" != "on" by { assert "no"[0] != "on"[0]; }
    assert "off" != "yes" by { assert "off"[0] != "yes"[0]; }
  }

  /** `parseBool`: the extra words, compared after trimming and lowering,
      and otherwise `strconv.ParseBool` of the string as given. */
  function ParseBool(str: string): (r: Result<bool, Error>)
    ensures ToLower(TrimSpace(str)) in ExtraFalseWords ==> r == Success(false)
    ensures ToLower(TrimSpace(str)) in ExtraTrueWords ==> r == Success(true)
    ensures ToLower(TrimSpace(str)) !in ExtraFalseWords + ExtraTrueWords ==> r == StrconvParseBool(str)
    ensures r.Failure? ==> r.error == ParseBoolSyntax(str)
  {
    ExtraWordsDisjoint();
    var word := ToLower(TrimSpace(str));
    if word in ExtraFalseWords then Success(false)
    else if word in ExtraTrueWords then Success(true)
    else StrconvParseBool(str)
  }

  /** What `parseBool` accepts: an extra word in any letter case and with
      any surrounding white space, or exactly a spelling `strconv.ParseBool`
      knows; everything else is a syntax error carrying the input. */
  lemma ParseBoolAccepts(str: string)
    ensures ParseBool(str).Success? <==>
              ToLower(TrimSpace(str)) in ExtraFalseWords + ExtraTrueWords
              || str in StrconvTrueWords + StrconvFalseWords
    ensures ParseBool(str).Failure? ==> ParseBool(str).error == ParseBoolSyntax(str)
  {
  }

  lemma {:induction false} TrimLeftOfSpaces(pre: string, s: string)
    requires AllSpace(pre)
    requires |s| > 0 && !IsSpace(s[0])
    ensures TrimLeftSpace(pre + s) == s
  {
    if pre != [] {
      assert (pre + s)[1..] == pre[1..] + s;
      TrimLeftOfSpaces(pre[1..], s);
    }
  }

  lemma {:induction false} TrimRightOfSpaces(s: string, post: string)
    requires AllSpace(post)
    requires |s| > 0 && !IsSpace(s[|s| - 1])
    ensures TrimRightSpace(s + post) == s
  {
    if post != [] {
      var n := |post|;
      assert (s + post)[..|s + post| - 1] == s + post[..n - 1];
      TrimRightOfSpaces(s, post[..n - 1]);
    } else {
      assert s + post == s;
    }
  }

  /** The extra words are recognised in any letter case and whatever white
      space surrounds them. */
  lemma ParseBoolIgnoresCaseAndSpace(pre: string, word: string, post: string)
    requires AllSpace(pre) && AllSpace(post)
    requires ToLower(word) in ExtraFalseWords + ExtraTrueWords
    ensures ParseBool(pre + word + post) == Success(ToLower(word) in ExtraTrueWords)
  {
    var lw := ToLower(word);
    assert |word| > 0 && !IsSpace(word[0]) && !IsSpace(word[|word| - 1]) by {
      assert |lw| > 0 && lw[0] in "nyo" && lw[|lw| - 1] in "nofys";
    }
    TrimLeftOfSpaces(pre, word + post);
    assert pre + word + post == pre + (word + post);
    TrimRightOfSpaces(word, post);
  }

  /** A string with no white space at either end is left alone by trimming. */
  lemma TrimSpaceOfTrimmed(pre: string, s: string)
    requires AllSpace(pre)
    requires |s| > 0 && !IsSpace(s[0]) && !IsSpace(s[|s| - 1])
    ensures TrimSpace(pre + s) == s
  {
    TrimLeftOfSpaces(pre, s);
    TrimRightOfSpaces(s, "");
    assert s + "" == s;
  }

  /** The fallback sees the string untrimmed: a padded "true" is rejected. */
  lemma ParseBoolFallbackIsUntrimmed()
    ensures ParseBool(" true") == Failure(ParseBoolSyntax(" true"))
  {
    var str := " true";
    var word := ToLower(TrimSpace(str));
    assert word == "true" by {
      assert TrimSpace(str) == "true" by {
        TrimSpaceOfTrimmed(" ", "true");
        assert " " + "true" == str;
      }
      assert ToLower("true") == "true";
    }
    assert word !in ExtraFalseWords + ExtraTrueWords by {
      assert |word| == 4;
    }
    assert str !in StrconvTrueWords + StrconvFalseWords by {
      assert |str| == 5 && str[0] == ' ';
    }
  }

  /** ... and so is a spelling of "true" in mixed case. */
  lemma ParseBoolFallbackIsCaseSensitive()
    ensures ParseBool("tRUE") == Failure(ParseBoolSyntax("tRUE"))
  {
    var str := "tRUE";
    var word := ToLower(TrimSpace(str));
    assert word == "true" by {
      assert TrimSpace(str) == str by {
        TrimSpaceOfTrimmed("", str);
        assert "" + str == str;
      }
      assert ToLower(str) == "true";
    }
    assert word !in ExtraFalseWords + ExtraTrueWords by {
      assert |word| == 4;
    }
    assert str !in StrconvTrueWords + StrconvFalseWords by {
      assert |str| == 4 && str[1] == 'R';
    }
  }

  // ---------------------------------------------------------------------
  // titleize

  /** `titleize`: the first rune title-cased, the rest untouched. */
  function Titleize(s: string): (r: string)
    ensures |r| == |s|
    ensures s == "" ==> r == ""
    ensures s != "" ==> r[0] == ToTitleRune(s[0]) && r[1..] == s[1..]
  {
    if s == "" then s else [ToTitleRune(s[0])] + s[1..]
  }

  /** Title-casing twice changes nothing more. */
  lemma TitleizeIdempotent(s: string)
    ensures Titleize(Titleize(s)) == Titleize(s)
  {
  }

  // ---------------------------------------------------------------------
  // upperSnakeCaseToCamelCase

  /** What the conversion makes of the `i`th word. */
  function CamelWord(i: nat, word: string): string {
    if i == 0 then ToLower(word)
    else if IsWellKnownAbbreviation(word) then word
    else Titleize(ToLower(word))
  }

  function CamelWords(words: seq<string>): (r: seq<string>)
    ensures |r| == |words|
    ensures forall i | 0 <= i < |words| :: r[i] == CamelWord(i, words[i])
  {
    seq(|words|, i requires 0 <= i < |words| => CamelWord(i, words[i]))
  }

  /** The camelCase form of an UPPER_SNAKE_CASE string. */
  function CamelCase(s: string): string {
    Concat(CamelWords(Split(s, '_')))
  }

  /** `upperSnakeCaseToCamelCase`, rewriting the split words in place. */
  method UpperSnakeCaseToCamelCase(s: string) returns (r: string)
    ensures r == CamelCase(s)
  {
    var words := Split(s, '_');
    ghost var original := words;
    for i := 0 to |words|
      invariant |words| == |original|
      invariant forall j | 0 <= j < i :: words[j] == CamelWord(j, original[j])
      invariant forall j | i <= j < |words| :: words[j] == original[j]
    {
      var word := words[i];
      if i == 0 {
        words := words[i := ToLower(word)];
      } else if !IsWellKnownAbbreviation(word) {
        words := words[i := Titleize(ToLower(word))];
      }
    }
    assert words == CamelWords(original);
    r := Concat(words);
  }

  /** A string without underscores is a single word: it is lowercased. */
  lemma CamelCaseOfOneWord(w: string)
    requires '_' !in w
    ensures CamelCase(w) == ToLower(w)
  {
    SplitWithoutSeparator(w, '_');
    assert CamelWords([w]) == [ToLower(w)];
    assert Concat([ToLower(w)]) == ToLower(w) + Concat([]);
  }

  /** Every word after the first is converted on its own and appended: kept
      verbatim if it is a well-known abbreviation, else lowercased and
      title-cased. */
  lemma CamelCaseAppend(a: string, w: string)
    requires '_' !in w
    ensures CamelCase(a + "_" + w) ==
              CamelCase(a) + (if IsWellKnownAbbreviation(w) then w else Titleize(ToLower(w)))
  {
    SplitAppend(a, '_', w);
    var words := Split(a, '_');
    assert CamelWords(words + [w]) == CamelWords(words) + [CamelWord(|words|, w)];
    ConcatAppend(CamelWords(words), CamelWord(|words|, w));
  }

  lemma {:induction false} CamelWordsKeepLengths(words: seq<string>, from: nat)
    ensures |Concat(seq(|words|, i requires 0 <= i < |words| => CamelWord(from + i, words[i])))| == SumLengths(words)
  {
    var converted := seq(|words|, i requires 0 <= i < |words| => CamelWord(from + i, words[i]));
    if words != [] {
      CamelWordsKeepLengths(words[1..], from + 1);
      assert converted[1..] == seq(|words[1..]|, i requires 0 <= i < |words[1..]| => CamelWord(from + 1 + i, words[1..][i]));
    }
  }

  /** Converting a word maps each rune by a case map that fixes '_'. */
  lemma CamelWordHasNoUnderscore(i: nat, word: string)
    requires '_' !in word
    ensures '_' !in CamelWord(i, word)
  {
    var lowered := ToLower(word);
    assert forall k | 0 <= k < |lowered| :: lowered[k] != '_';
    if word != "" {
      assert forall k | 1 <= k < |lowered| :: Titleize(lowered)[k] == lowered[k];
    }
  }

  lemma CamelWordsHaveNoUnderscore(words: seq<string>, from: nat)
    requires forall i | 0 <= i < |words| :: '_' !in words[i]
    ensures '_' !in Concat(seq(|words|, i requires 0 <= i < |words| => CamelWord(from + i, words[i])))
  {
    var converted := seq(|words|, i requires 0 <= i < |words| => CamelWord(from + i, words[i]));
    forall i | 0 <= i < |converted|
      ensures '_' !in converted[i]
    {
      CamelWordHasNoUnderscore(from + i, words[i]);
    }
    ConcatAvoids(converted, '_');
  }

  /** The result drops exactly the underscores: it is as long as the input
      less its underscores and contains none. */
  lemma CamelCaseDropsUnderscores(s: string)
    ensures |CamelCase(s)| == |s| - Count(s, '_')
    ensures '_' !in CamelCase(s)
  {
    var words := Split(s, '_');
    SplitPieces(s, '_');
    assert CamelWords(words) == seq(|words|, i requires 0 <= i < |words| => CamelWord(0 + i, words[i]));
    CamelWordsKeepLengths(words, 0);
    CamelWordsHaveNoUnderscore(words, 0);
  }

  /** Two words: the first lowercased, the second kept or title-cased. */
  lemma CamelCaseOfTwoWords(a: string, w: string)
    requires '_' !in a && '_' !in w
    ensures CamelCase(a + "_" + w) == ToLower(a) + (if IsWellKnownAbbreviation(w) then w else Titleize(ToLower(w)))
  {
    CamelCaseOfOneWord(a);
    CamelCaseAppend(a, w);
  }

  /** A worked conversion: the first word is lowercased, a later
      well-known abbreviation is kept as it is. */
  lemma CamelCaseKeepsLaterAbbreviation()
    ensures CamelCase("GITHUB_ID") == "githubID"
  {
    assert "GITHUB" + "_" + "ID" == "GITHUB_ID";
    assert ToLower("GITHUB") == "github";
    CamelCaseOfTwoWords("GITHUB", "ID");
  }

  /** The first word is lowercased even when it is an abbreviation. */
  lemma CamelCaseLowersFirstAbbreviation()
    ensures CamelCase("ID_URL") == "idURL"
  {
    CamelCaseOfOneWord("ID");
    assert ToLower("ID") == "id";
    CamelCaseAppend("ID", "URL");
    assert "ID" + "_" + "URL" == "ID_URL";
  }

  /** Distinct keys can share a camelCase form (an empty word vanishes),
      which is why the map conversion may shrink. */
  lemma CamelCaseNotInjective()
    ensures CamelCase("A_B") == CamelCase("A__B") == "aB"
  {
    CamelCaseOfAB();
    CamelCaseOfADoubleB();
  }

  lemma CamelCaseOfAB()
    ensures CamelCase("A_B") == "aB"
  {
    CamelCaseOfTwoWords("A", "B");
    assert "A" + "_" + "B" == "A_B";
    assert ToLower("A") == "a";
    assert Titleize(ToLower("B")) == "B";
  }

  /** The empty word between the two underscores contributes nothing. */
  lemma CamelCaseOfADoubleB()
    ensures CamelCase("A__B") == "aB"
  {
    assert CamelCase("A_") == "a" by {
      CamelCaseOfTwoWords("A", "");
      assert "A" + "_" + "" == "A_";
      assert ToLower("A") == "a";
    }
    CamelCaseAppend("A_", "B");
    assert "A_" + "_" + "B" == "A__B";
    assert Titleize(ToLower("B")) == "B";
  }

  // ---------------------------------------------------------------------
  // upperSnakeCaseToCamelCaseMap

  lemma {:induction false} ImageNoLarger(keys: set<string>)
    ensures |set k | k in keys :: CamelCase(k)| <= |keys|
    decreases |keys|
  {
    if keys != {} {
      var k :| k in keys;
      var rest := keys - {k};
      ImageNoLarger(rest);
      assert (set x | x in keys :: CamelCase(x)) == (set x | x in rest :: CamelCase(x)) + {CamelCase(k)};
    }
  }

  /** `upperSnakeCaseToCamelCaseMap`: every key converted, every value kept.
      Where two keys convert alike, the one visited last wins; Go visits a
      map in no fixed order, so the model chooses the order freely. */
  method UpperSnakeCaseToCamelCaseMap(m: map<string, string>) returns (result: map<string, string>)
    ensures result.Keys == set k | k in m :: CamelCase(k)
    ensures forall ck | ck in result :: exists k | k in m :: CamelCase(k) == ck && m[k] == result[ck]
    ensures |result| <= |m|
  {
    result := map[];
    var pending := m.Keys;
    while pending != {}
      invariant pending <= m.Keys
      invariant result.Keys == set k | k in m.Keys - pending :: CamelCase(k)
      invariant forall ck | ck in result :: exists k | k in m.Keys - pending :: CamelCase(k) == ck && m[k] == result[ck]
      decreases pending
    {
      var k :| k in pending;
      var ck := UpperSnakeCaseToCamelCase(k);
      result := result[ck := m[k]];
      pending := pending - {k};
    }
    ImageNoLarger(m.Keys);
  }

  // ---------------------------------------------------------------------
  // uniqueAbbreviations

  /** `a` is a non-empty prefix of `v`. */
  predicate IsAbbreviationOf(a: string, v: string) {
    0 < |a| <= |v| && v[..|a|] == a
  }

  /** The occurrences in `values`, in order and with repetitions, of which
      `a` is an abbreviation. */
  function Holders(values: seq<string>, a: string): seq<string>
    decreases |values|
  {
    if values == [] then []
    else
      var last := values[|values| - 1];
      Holders(values[..|values| - 1], a) + (if IsAbbreviationOf(a, last) then [last] else [])
  }

  /** The holders `value` adds to `a` once its prefixes shorter than `j`
      have been recorded. */
  function Pending(a: string, value: string, j: nat): seq<string> {
    if IsAbbreviationOf(a, value) && |a| < j then [value] else []
  }

  /** `table` maps each abbreviation of the values `done`, and of the
      prefixes of `value` shorter than `j`, to its holders. */
  ghost predicate Tabulates(table: map<string, seq<string>>, done: seq<string>, value: string, j: nat) {
    && (forall a | a in table :: table[a] == Holders(done, a) + Pending(a, value, j) && table[a] != [])
    && (forall a | Holders(done, a) != [] || Pending(a, value, j) != [] :: a in table)
  }

  /** Recording the prefix of length `j` keeps the table exact. */
  lemma TabulateStep(table: map<string, seq<string>>, done: seq<string>, value: string, j: nat)
    requires Tabulates(table, done, value, j)
    requires 1 <= j <= |value|
    ensures var abbreviation := value[..j];
            var holders := if abbreviation in table then table[abbreviation] else [];
            Tabulates(table[abbreviation := holders + [value]], done, value, j + 1)
  {
    var abbreviation := value[..j];
    var holders := if abbreviation in table then table[abbreviation] else [];
    var table' := table[abbreviation := holders + [value]];
    forall a | a in table'
      ensures table'[a] == Holders(done, a) + Pending(a, value, j + 1) && table'[a] != []
    {
      if a == abbreviation {
        assert IsAbbreviationOf(a, value);
        if abbreviation !in table {
          assert Holders(done, a) == [];
        }
      } else {
        assert Pending(a, value, j + 1) == Pending(a, value, j);
      }
    }
    forall a | Holders(done, a) != [] || Pending(a, value, j + 1) != []
      ensures a in table'
    {
      if a != abbreviation {
        assert Pending(a, value, j + 1) == Pending(a, value, j);
      }
    }
  }

  /** Once every prefix of `done[i]` is recorded, `done[..i + 1]` is. */
  lemma TabulateNext(table: map<string, seq<string>>, values: seq<string>, i: nat)
    requires i < |values|
    requires Tabulates(table, values[..i], values[i], |values[i]| + 1)
    ensures Tabulates(table, values[..i + 1], "", 0)
  {
    assert values[..i + 1][..i] == values[..i];
    forall a ensures Holders(values[..i + 1], a) == Holders(values[..i], a) + Pending(a, values[i], |values[i]| + 1) {
    }
  }

  /** Before any prefix of `value` is recorded, nothing of it is pending. */
  lemma TabulateStart(table: map<string, seq<string>>, done: seq<string>, value: string)
    requires Tabulates(table, done, "", 0)
    ensures Tabulates(table, done, value, 1)
  {
    forall a ensures Pending(a, value, 1) == [] && Pending(a, "", 0) == [] {
    }
  }

  /** A finished table lists exactly the holders of each abbreviation. */
  lemma TabulatedHolders(table: map<string, seq<string>>, values: seq<string>)
    requires Tabulates(table, values, "", 0)
    ensures forall a :: a in table <==> Holders(values, a) != []
    ensures forall a | a in table :: table[a] == Holders(values, a)
  {
    forall a ensures Pending(a, "", 0) == [] {
    }
  }

  /** The first loop of `uniqueAbbreviations`: every non-empty prefix of
      every value, listed with the values it abbreviates. */
  method AbbreviationTable(values: seq<string>) returns (abbreviations: map<string, seq<string>>)
    ensures forall a :: a in abbreviations <==> Holders(values, a) != []
    ensures forall a | a in abbreviations :: abbreviations[a] == Holders(values, a)
  {
    abbreviations := map[];
    for i := 0 to |values|
      invariant Tabulates(abbreviations, values[..i], "", 0)
    {
      var value := values[i];
      TabulateStart(abbreviations, values[..i], value);
      for j := 1 to |value| + 1
        invariant Tabulates(abbreviations, values[..i], value, j)
      {
        TabulateStep(abbreviations, values[..i], value, j);
        var abbreviation := value[..j];
        var holders := if abbreviation in abbreviations then abbreviations[abbreviation] else [];
        abbreviations := abbreviations[abbreviation := holders + [value]];
      }
      TabulateNext(abbreviations, values, i);
    }
    assert values[..|values|] == values;
    TabulatedHolders(abbreviations, values);
  }

  /** The second loop of `uniqueAbbreviations`: the abbreviations with a
      single holder, mapped to it. */
  method SingleHolders(abbreviations: map<string, seq<string>>) returns (unique: map<string, string>)
    ensures forall a :: a in unique <==> a in abbreviations && |abbreviations[a]| == 1
    ensures forall a | a in unique :: unique[a] == abbreviations[a][0]
  {
    unique := map[];
    var pending := abbreviations.Keys;
    while pending != {}
      invariant pending <= abbreviations.Keys
      invariant forall a | a in unique :: a in abbreviations && a !in pending && |abbreviations[a]| == 1 && unique[a] == abbreviations[a][0]
      invariant forall a | a in abbreviations && a !in pending && |abbreviations[a]| == 1 :: a in unique
      decreases pending
    {
      var a :| a in pending;
      if |abbreviations[a]| == 1 {
        unique := unique[a := abbreviations[a][0]];
      }
      pending := pending - {a};
    }
  }

  /** The third loop of `uniqueAbbreviations`: every value is added,
      mapped to itself, over whatever `single` held for it. */
  method AddValues(single: map<string, string>, values: seq<string>) returns (unique: map<string, string>)
    ensures forall a :: a in unique <==> a in single || a in values
    ensures forall a | a in unique && a !in values :: unique[a] == single[a]
    ensures forall v | v in values :: unique[v] == v
  {
    unique := single;
    for i := 0 to |values|
      invariant forall a :: a in unique <==> a in single || a in values[..i]
      invariant forall a | a in unique && a !in values[..i] :: unique[a] == single[a]
      invariant forall k | 0 <= k < i :: unique[values[k]] == values[k]
    {
      assert values[..i + 1] == values[..i] + [values[i]];
      unique := unique[values[i] := values[i]];
    }
    assert values[..|values|] == values;
  }

  /** `uniqueAbbreviations`: a table from the abbreviations to the values
      they abbreviate, then the abbreviations with one holder, then every
      value mapped to itself. */
  method UniqueAbbreviations(values: seq<string>) returns (unique: map<string, string>)
    ensures forall v | v in values :: v in unique && unique[v] == v
    ensures forall a | a !in values :: a in unique <==> |Holders(values, a)| == 1
    ensures forall a | a in unique && a !in values :: unique[a] == Holders(values, a)[0]
  {
    var abbreviations := AbbreviationTable(values);
    var single := SingleHolders(abbreviations);
    assert forall a :: a in single <==> |Holders(values, a)| == 1;
    assert forall a | a in single :: single[a] == Holders(values, a)[0];
    unique := AddValues(single, values);
  }

  /** Every holder is an occurrence the abbreviation abbreviates. */
  lemma {:induction false} HoldersAbbreviate(values: seq<string>, a: string)
    ensures forall h | h in Holders(values, a) :: h in values && IsAbbreviationOf(a, h)
    decreases |values|
  {
    if values != [] {
      var init := values[..|values| - 1];
      HoldersAbbreviate(init, a);
      assert forall h | h in init :: h in values;
    }
  }

  /** An occurrence that the abbreviation abbreviates is among its holders. */
  lemma {:induction false} OccurrenceHolds(values: seq<string>, a: string, i: nat)
    requires i < |values| && IsAbbreviationOf(a, values[i])
    ensures Holders(values, a) != []
    decreases |values|
  {
    if i < |values| - 1 {
      OccurrenceHolds(values[..|values| - 1], a, i);
    }
  }

  /** Two occurrences that the abbreviation abbreviates make two holders. */
  lemma {:induction false} TwoOccurrencesHold(values: seq<string>, a: string, i: nat, j: nat)
    requires i < j < |values| && IsAbbreviationOf(a, values[i]) && IsAbbreviationOf(a, values[j])
    ensures |Holders(values, a)| >= 2
    decreases |values|
  {
    var init := values[..|values| - 1];
    if j == |values| - 1 {
      OccurrenceHolds(init, a, i);
    } else {
      TwoOccurrencesHold(init, a, i, j);
    }
  }

  /** What a caller of `uniqueAbbreviations` may rely on: a key that is not
      itself a value is a non-empty prefix of the value it maps to, and no
      other occurrence starts with it. */
  lemma UniqueAbbreviationIsUniquePrefix(values: seq<string>, unique: map<string, string>, a: string, i: nat)
    requires forall a | a !in values :: a in unique <==> |Holders(values, a)| == 1
    requires forall a | a in unique && a !in values :: unique[a] == Holders(values, a)[0]
    requires a in unique && a !in values
    requires i < |values| && IsAbbreviationOf(a, values[i])
    ensures unique[a] == values[i] && IsAbbreviationOf(a, unique[a])
    ensures forall j | 0 <= j < |values| && j != i :: !IsAbbreviationOf(a, values[j])
  {
    HoldersAbbreviate(values, a);
    OccurrenceHolds(values, a, i);
    assert Holders(values, a)[0] in Holders(values, a);
    forall j | 0 <= j < |values| && j != i
      ensures !IsAbbreviationOf(a, values[j])
    {
      if IsAbbreviationOf(a, values[j]) {
        if i < j { TwoOccurrencesHold(values, a, i, j); } else { TwoOccurrencesHold(values, a, j, i); }
      }
    }
    assert |Holders(values, a)| == 1;
    var h := Holders(values, a)[0];
    assert h in values && IsAbbreviationOf(a, h);
    var k :| 0 <= k < |values| && values[k] == h;
    assert k == i;
  }

  /** A prefix shared by two occurrences, a value listed twice included, is
      no key unless it is itself a value. */
  lemma SharedPrefixIsDropped(values: seq<string>, unique: map<string, string>, a: string, i: nat, j: nat)
    requires forall a | a !in values :: a in unique <==> |Holders(values, a)| == 1
    requires i < j < |values| && IsAbbreviationOf(a, values[i]) && IsAbbreviationOf(a, values[j])
    requires a !in values
    ensures a !in unique
  {
    TwoOccurrencesHold(values, a, i, j);
  }

  // ---------------------------------------------------------------------
  // validateKeys

  /** The dynamically typed configuration data `validateKeys` walks: `Map`
      stands for `map[string]interface{}` alone and `List` for
      `[]interface{}`; every other value, including maps of any other type
      (`map[string]string`, `map[interface{}]interface{}`), is a `Scalar`,
      which the type switch does not descend into. */
  datatype Data = Map(entries: map<string, Data>) | List(items: seq<Data>) | Scalar

  /** Every map key at every depth satisfies `matches`. */
  predicate KeysValid(data: Data, matches: string -> bool) {
    match data
    case Map(entries) => forall k | k in entries :: matches(k) && KeysValid(entries[k], matches)
    case List(items) => forall i | 0 <= i < |items| :: KeysValid(items[i], matches)
    case Scalar => true
  }

  /** `key` is a map key somewhere in `data`. */
  predicate HasKey(data: Data, key: string) {
    match data
    case Map(entries) => key in entries || exists k | k in entries :: HasKey(entries[k], key)
    case List(items) => exists i | 0 <= i < |items| :: HasKey(items[i], key)
    case Scalar => false
  }

  /** The recursive check agrees with the flat one: the keys are valid iff
      every key at every depth matches. */
  lemma {:induction false} KeysValidIffEveryKeyMatches(data: Data, matches: string -> bool)
    ensures KeysValid(data, matches) <==> forall key | HasKey(data, key) :: matches(key)
  {
    match data
    case Map(entries) =>
      forall k | k in entries { KeysValidIffEveryKeyMatches(entries[k], matches); }
    case List(items) =>
      forall i | 0 <= i < |items| { KeysValidIffEveryKeyMatches(items[i], matches); }
    case Scalar =>
  }

  /** `validateKeys`: nil for data that is neither a map nor a list; for a
      map, each key in turn and then its value; for a list, each item. The
      first failure found is returned; Go visits a map in no fixed order,
      so the model chooses the order freely. */
  method ValidateKeys(data: Data, matches: string -> bool) returns (err: Option<Error>)
    ensures err.None? <==> KeysValid(data, matches)
    ensures err.Some? ==> err.value.InvalidKey? && HasKey(data, err.value.key) && !matches(err.value.key)
    decreases data
  {
    match data {
      case Map(entries) =>
        var pending := entries.Keys;
        while pending != {}
          invariant pending <= entries.Keys
          invariant forall k | k in entries && k !in pending :: matches(k) && KeysValid(entries[k], matches)
          decreases pending
        {
          var key :| key in pending;
          if !matches(key) {
            return Some(InvalidKey(key));
          }
          var e := ValidateKeys(entries[key], matches);
          if e.Some? {
            return e;
          }
          pending := pending - {key};
        }
      case List(items) =>
        for i := 0 to |items|
          invariant forall j | 0 <= j < i :: KeysValid(items[j], matches)
        {
          var e := ValidateKeys(items[i], matches);
          if e.Some? {
            return e;
          }
        }
      case Scalar =>
    }
    return None;
  }
}
