/** The converters between API names, command-line names and argument names, and the names they preserve. */
module NameCase {
  import opened Values

  predicate Lower(c: char) { 'a' <= c <= 'z' }

  predicate Upper(c: char) { 'A' <= c <= 'Z' }

  predicate Digit(c: char) { '0' <= c <= '9' }

  predicate Letter(c: char) { Lower(c) || Upper(c) }

  function ToLower(c: char): char { if Upper(c) then (c as int + 32) as char else c }

  function ToUpper(c: char): char { if Lower(c) then (c as int - 32) as char else c }

  function LowerAll(s: string): string { if s == "" then "" else [ToLower(s[0])] + LowerAll(s[1..]) }

  function Replace(s: string, a: char, b: char): string {
    if s == "" then "" else [if s[0] == a then b else s[0]] + Replace(s[1..], a, b)
  }

  // ------------------------------------------------------------ the two substitutions

  /** How many lower-case letters the text starts with. */
  function LowerRun(s: string): (n: nat)
    ensures n <= |s| && forall i :: 0 <= i < n ==> Lower(s[i])
    ensures n < |s| ==> !Lower(s[n])
  {
    if s == "" || !Lower(s[0]) then 0 else 1 + LowerRun(s[1..])
  }

  /** `re.sub("(.)([A-Z][a-z]+)", r"\1-\2", s)` for the separator `-`. */
  function SubWords(s: string, sep: char): string
    decreases |s|
  {
    if s == "" then ""
    else if |s| > 2 && s[0] != '\n' && Upper(s[1]) && Lower(s[2]) then
      var n := 2 + LowerRun(s[2..]);
      [s[0], sep, s[1]] + (s[2..n] + SubWords(s[n..], sep))
    else [s[0]] + SubWords(s[1..], sep)
  }

  /** `re.sub("([a-z0-9])([A-Z])", r"\1-\2", s)` for the separator `-`. */
  function SubEdges(s: string, sep: char): string
    decreases |s|
  {
    if s == "" then ""
    else if |s| > 1 && (Lower(s[0]) || Digit(s[0])) && Upper(s[1]) then [s[0], sep, s[1]] + SubEdges(s[2..], sep)
    else [s[0]] + SubEdges(s[1..], sep)
  }

  function ToKebabCase(s: string): string { LowerAll(SubEdges(Replace(SubWords(s, '-'), '_', '-'), '-')) }

  function ToSnakeCase(s: string): string { LowerAll(SubEdges(Replace(SubWords(s, '_'), '-', '_'), '_')) }

  /** `s.split("_")`. */
  function Split(s: string): seq<string>
    ensures Split(s) != []
  {
    if s == "" then [""]
    else if s[0] == '_' then [""] + Split(s[1..])
    else [[s[0]] + Split(s[1..])[0]] + Split(s[1..])[1..]
  }

  /** `word.title()`, given whether a letter comes before. */
  function Title(s: string, afterLetter: bool): string {
    if s == "" then ""
    else [if afterLetter then ToLower(s[0]) else ToUpper(s[0])] + Title(s[1..], Letter(s[0]))
  }

  function JoinTitles(parts: seq<string>): string {
    if parts == [] then "" else Title(parts[0], false) + JoinTitles(parts[1..])
  }

  function ToPascalCase(s: string): string { JoinTitles(Split(s)) }

  /** `to_camel_case`; nothing when the name has no characters left to read. */
  function ToCamelCase(s: string): Option<string> {
    var pascal := ToPascalCase(s);
    if pascal == "" then None else Some([ToLower(pascal[0])] + pascal[1..])
  }

  // ------------------------------------------------------------ where the words of a name begin

  predicate Alphanumeric(s: string) { forall i :: 0 <= i < |s| ==> Letter(s[i]) || Digit(s[i]) }

  /** The text after the character `p`, with a separator before each capital that follows a lower-case letter or digit, or
      that a lower-case letter follows. */
  function Separated(p: char, s: string, sep: char): string
    decreases |s|
  {
    if s == "" then ""
    else (if Begins(p, s) then [sep, s[0]] else [s[0]]) + Separated(s[0], s[1..], sep)
  }

  predicate Begins(p: char, s: string)
    requires s != ""
  {
    Upper(s[0]) && (Lower(p) || Digit(p) || (|s| > 1 && Lower(s[1])))
  }

  /** The second substitution, read as one separator before each capital that follows a lower-case letter or digit. */
  function Edges(s: string, sep: char): string {
    if |s| < 2 then s
    else (if (Lower(s[0]) || Digit(s[0])) && Upper(s[1]) then [s[0], sep] else [s[0]]) + Edges(s[1..], sep)
  }

  lemma {:induction false} SubEdgesIsEdges(s: string, sep: char)
    ensures SubEdges(s, sep) == Edges(s, sep)
    decreases |s|
  {
    if |s| > 1 && (Lower(s[0]) || Digit(s[0])) && Upper(s[1]) {
      SubEdgesIsEdges(s[2..], sep);
      assert s[1..][1..] == s[2..];
      assert Edges(s[1..], sep) == [s[1]] + Edges(s[2..], sep);
      assert [s[0], sep] + ([s[1]] + Edges(s[2..], sep)) == [s[0], sep, s[1]] + Edges(s[2..], sep);
    } else if s != "" {
      SubEdgesIsEdges(s[1..], sep);
    }
  }

  lemma SubWordsHead(s: string, sep: char)
    requires s != ""
    ensures SubWords(s, sep) != "" && SubWords(s, sep)[0] == s[0]
  {
  }

  lemma EdgesCons(c: char, t: string, sep: char)
    ensures t != "" ==>
              Edges([c] + t, sep) == (if (Lower(c) || Digit(c)) && Upper(t[0]) then [c, sep] else [c]) + Edges(t, sep)
    ensures t == "" ==> Edges([c] + t, sep) == [c]
  {
    assert ([c] + t)[1..] == t;
  }

  lemma SeparatedCons(p: char, c: char, t: string, sep: char)
    ensures Separated(p, [c] + t, sep) == (if Begins(p, [c] + t) then [sep, c] else [c]) + Separated(c, t, sep)
  {
    assert ([c] + t)[1..] == t;
  }

  /** A lower-case letter before a text whose separators are right. */
  lemma LetterThenRest(c: char, out: string, s: string, sep: char)
    requires Lower(c) && out != "" && s != "" && out[0] == s[0]
    requires Edges(out, sep) == [s[0]] + Separated(s[0], s[1..], sep)
    ensures Edges([c] + out, sep) == [c] + Separated(c, s, sep)
  {
    EdgesCons(c, out, sep);
    var more := Separated(s[0], s[1..], sep);
    assert Separated(c, s, sep) == (if Upper(s[0]) then [sep, s[0]] else [s[0]]) + more;
    hide Edges, Separated;
    Regroup(c, sep, s[0], more);
    RegroupTwo(c, sep, s[0], more);
  }

  lemma RegroupTwo(a: char, b: char, c: char, d: string)
    ensures [a, b, c] + d == [a, b] + ([c] + d)
  {
  }

  /** A run of lower-case letters gets no separator inside, and one after it if a capital follows. */
  lemma {:induction false} RunThenRest(run: string, s: string, sep: char)
    requires run != "" && forall i :: 0 <= i < |run| ==> Lower(run[i])
    requires s != "" ==> Edges(SubWords(s, sep), sep) == [s[0]] + Separated(s[0], s[1..], sep)
    ensures Edges(run + SubWords(s, sep), sep) == [run[0]] + Separated(run[0], run[1..] + s, sep)
    decreases |run|
  {
    var c, more, out := run[0], run[1..], SubWords(s, sep);
    assert run + out == [c] + (more + out);
    if more != "" {
      RunThenRest(more, s, sep);
      assert (more + s)[1..] == more[1..] + s;
      LetterThenRest(c, more + out, more + s, sep);
    } else if s != "" {
      SubWordsHead(s, sep);
      assert more + out == out && more + s == s;
      LetterThenRest(c, out, s, sep);
    } else {
      assert more + out == "" && more + s == "";
    }
  }

  /** Both substitutions together put a separator exactly where a word begins. */
  lemma {:induction false} SubstitutionsSeparate(s: string, sep: char)
    requires s != "" && Alphanumeric(s) && !Letter(sep) && !Digit(sep)
    ensures Edges(SubWords(s, sep), sep) == [s[0]] + Separated(s[0], s[1..], sep)
    decreases |s|
  {
    if |s| > 2 && s[0] != '\n' && Upper(s[1]) && Lower(s[2]) {
      var n := 2 + LowerRun(s[2..]);
      var run, rest := s[2..n], s[n..];
      if rest != "" {
        SubstitutionsSeparate(rest, sep);
      }
      RunThenRest(run, rest, sep);
      WordThenRest(s, run, rest, sep);
    } else if |s| > 1 {
      SubstitutionsSeparate(s[1..], sep);
      SubWordsHead(s[1..], sep);
    }
  }

  /** A character, a separator put in by the first substitution, and a word. */
  lemma WordEdges(c: char, u: char, out: string, sep: char)
    requires Upper(u) && !Letter(sep) && !Digit(sep) && out != "" && Lower(out[0])
    ensures Edges([c, sep, u] + out, sep) == [c, sep, u] + Edges(out, sep)
  {
    var afterU, afterSep := [u] + out, [sep, u] + out;
    EdgesCons(u, out, sep);
    assert [sep] + afterU == afterSep;
    EdgesCons(sep, afterU, sep);
    assert [c] + afterSep == [c, sep, u] + out;
    EdgesCons(c, afterSep, sep);
    hide Edges;
    RegroupAll(c, sep, u, Edges(out, sep));
  }

  lemma RegroupAll(a: char, b: char, c: char, d: string)
    ensures [a, b, c] + d == [a] + ([b] + ([c] + d))
  {
  }

  lemma WordThenRest(s: string, run: string, rest: string, sep: char)
    requires |s| > 2 && Alphanumeric(s) && !Letter(sep) && !Digit(sep)
    requires Upper(s[1]) && Lower(s[2]) && run == s[2..2 + LowerRun(s[2..])] && rest == s[2 + LowerRun(s[2..])..]
    requires Edges(run + SubWords(rest, sep), sep) == [run[0]] + Separated(run[0], run[1..] + rest, sep)
    ensures Edges(SubWords(s, sep), sep) == [s[0]] + Separated(s[0], s[1..], sep)
  {
    assert run != "" && run[0] == s[2];
    assert SubWords(s, sep) == [s[0], sep, s[1]] + (run + SubWords(rest, sep));
    WordEdges(s[0], s[1], run + SubWords(rest, sep), sep);
    WordSeparated(s, sep);
    hide SubWords, Edges, Separated, LowerRun;
    AfterThird(s, run, rest);
    Regroup(s[0], sep, s[1], [s[2]] + Separated(s[2], s[3..], sep));
  }

  lemma AfterThird(s: string, run: string, rest: string)
    requires |s| > 2 && |run| + 2 <= |s| && run != "" && run == s[2..2 + |run|] && rest == s[2 + |run|..]
    ensures s[3..] == run[1..] + rest
  {
  }

  lemma Regroup(a: char, b: char, c: char, d: string)
    ensures [a, b, c] + d == [a] + ([b, c] + d)
  {
  }

  lemma WordSeparated(s: string, sep: char)
    requires |s| > 2 && Upper(s[1]) && Lower(s[2])
    ensures Separated(s[0], s[1..], sep) == [sep, s[1]] + ([s[2]] + Separated(s[2], s[3..], sep))
  {
    assert s[1..][1..] == s[2..] && s[2..][1..] == s[3..];
  }

  // ------------------------------------------------------------ what the converters give for an API name

  lemma {:induction false} ReplaceNothing(s: string, a: char, b: char)
    requires a !in s
    ensures Replace(s, a, b) == s
    decreases |s|
  {
    if s != "" {
      ReplaceNothing(s[1..], a, b);
    }
  }

  lemma {:induction false} SubWordsChars(s: string, sep: char, c: char)
    requires c !in s && c != sep
    ensures c !in SubWords(s, sep)
    decreases |s|
  {
    if |s| > 2 && s[0] != '\n' && Upper(s[1]) && Lower(s[2]) {
      SubWordsChars(s[2 + LowerRun(s[2..])..], sep, c);
    } else if s != "" {
      SubWordsChars(s[1..], sep, c);
    }
  }

  /** The name in lower case with a separator where each word begins. */
  function Words(s: string, sep: char): string
    requires s != ""
  {
    LowerAll([s[0]] + Separated(s[0], s[1..], sep))
  }

  lemma KebabIsWords(s: string)
    requires s != "" && Alphanumeric(s)
    ensures ToKebabCase(s) == Words(s, '-') && ToSnakeCase(s) == Words(s, '_')
  {
    SubWordsChars(s, '-', '_');
    SubWordsChars(s, '_', '-');
    ReplaceNothing(SubWords(s, '-'), '_', '-');
    ReplaceNothing(SubWords(s, '_'), '-', '_');
    SubEdgesIsEdges(SubWords(s, '-'), '-');
    SubEdgesIsEdges(SubWords(s, '_'), '_');
    SubstitutionsSeparate(s, '-');
    SubstitutionsSeparate(s, '_');
  }

  predicate NoCapital(s: string) { forall i :: 0 <= i < |s| ==> !Upper(s[i]) }

  lemma {:induction false} NothingToDo(s: string, sep: char)
    requires NoCapital(s)
    ensures SubWords(s, sep) == s && SubEdges(s, sep) == s && LowerAll(s) == s
    decreases |s|
  {
    if s != "" {
      NothingToDo(s[1..], sep);
    }
  }

  lemma {:induction false} LowerNoCapital(s: string)
    ensures NoCapital(LowerAll(s)) && |LowerAll(s)| == |s|
    decreases |s|
  {
    if s != "" {
      LowerNoCapital(s[1..]);
    }
  }

  lemma {:induction false} ReplaceNoCapital(s: string)
    requires NoCapital(s)
    ensures NoCapital(Replace(s, '-', '_'))
    decreases |s|
  {
    if s != "" {
      ReplaceNoCapital(s[1..]);
    }
  }

  /** The snake case of a command-line name only exchanges the separators. */
  lemma SnakeOfKebab(k: string)
    requires NoCapital(k)
    ensures ToSnakeCase(k) == Replace(k, '-', '_')
  {
    NothingToDo(k, '_');
    ReplaceNoCapital(k);
    NothingToDo(Replace(k, '-', '_'), '_');
  }

  lemma {:induction false} ReplaceInWords(p: char, s: string)
    requires Alphanumeric(s)
    ensures Replace(LowerAll(Separated(p, s, '-')), '-', '_') == LowerAll(Separated(p, s, '_'))
    decreases |s|
  {
    if s != "" {
      ReplaceInWords(s[0], s[1..]);
      var more, more' := Separated(s[0], s[1..], '-'), Separated(s[0], s[1..], '_');
      if Begins(p, s) {
        assert ['-', s[0]] + more == ['-'] + ([s[0]] + more) && ['_', s[0]] + more' == ['_'] + ([s[0]] + more');
        ConsCase('-', [s[0]] + more);
        ConsCase('_', [s[0]] + more');
      }
      ConsCase(s[0], more);
      ConsCase(s[0], more');
    }
  }

  lemma ConsCase(c: char, t: string)
    ensures LowerAll([c] + t) == [ToLower(c)] + LowerAll(t)
    ensures Replace([ToLower(c)] + LowerAll(t), '-', '_')
            == [if ToLower(c) == '-' then '_' else ToLower(c)] + Replace(LowerAll(t), '-', '_')
  {
    assert ([c] + t)[1..] == t;
    assert ([ToLower(c)] + LowerAll(t))[1..] == LowerAll(t);
  }

  /** Going to the argument name by way of the command-line name makes no difference. */
  lemma SnakeByKebab(s: string)
    requires s != "" && Alphanumeric(s)
    ensures ToSnakeCase(ToKebabCase(s)) == Words(s, '_')
  {
    KebabIsWords(s);
    LowerNoCapital([s[0]] + Separated(s[0], s[1..], '-'));
    SnakeOfKebab(Words(s, '-'));
    ReplaceInWords(s[0], s[1..]);
    ConsCase(s[0], Separated(s[0], s[1..], '-'));
    ConsCase(s[0], Separated(s[0], s[1..], '_'));
  }

  // ------------------------------------------------------------ back to the API name

  /** The Pascal case of a text, given whether a letter comes before. */
  function Pascal(s: string, afterLetter: bool): string {
    if s == "" then ""
    else if s[0] == '_' then Pascal(s[1..], false)
    else [if afterLetter then ToLower(s[0]) else ToUpper(s[0])] + Pascal(s[1..], Letter(s[0]))
  }

  lemma SplitCons(c: char, t: string)
    ensures c == '_' ==> Split([c] + t) == [""] + Split(t)
    ensures c != '_' ==> Split([c] + t) == [[c] + Split(t)[0]] + Split(t)[1..]
  {
    assert ([c] + t)[1..] == t;
  }

  lemma TitleCons(c: char, t: string, afterLetter: bool)
    ensures Title([c] + t, afterLetter) == [if afterLetter then ToLower(c) else ToUpper(c)] + Title(t, Letter(c))
  {
    assert ([c] + t)[1..] == t;
  }

  lemma JoinCons(part: string, parts: seq<string>)
    ensures JoinTitles([part] + parts) == Title(part, false) + JoinTitles(parts)
  {
    assert ([part] + parts)[1..] == parts;
  }

  lemma Reassociate(a: string, b: string, c: string)
    ensures (a + b) + c == a + (b + c)
  {
  }

  lemma {:induction false} PartsArePascal(s: string, afterLetter: bool)
    ensures Title(Split(s)[0], afterLetter) + JoinTitles(Split(s)[1..]) == Pascal(s, afterLetter)
    decreases |s|
  {
    if s != "" {
      var (c, t) := (s[0], s[1..]);
      var parts := Split(t);
      assert s == [c] + t;
      SplitCons(c, t);
      PascalCons(c, t, afterLetter);
      if c == '_' {
        PartsArePascal(t, false);
        assert ([""] + parts)[1..] == parts && parts == [parts[0]] + parts[1..];
        JoinCons(parts[0], parts[1..]);
      } else {
        PartsArePascal(t, Letter(c));
        assert ([[c] + parts[0]] + parts[1..])[1..] == parts[1..];
        TitleCons(c, parts[0], afterLetter);
        hide Title, JoinTitles, Pascal, Split;
        Reassociate([if afterLetter then ToLower(c) else ToUpper(c)], Title(parts[0], Letter(c)), JoinTitles(parts[1..]));
      }
    }
  }

  lemma PascalCaseIs(s: string)
    ensures ToPascalCase(s) == Pascal(s, false)
  {
    PartsArePascal(s, false);
  }

  /** After the character `p` the words come back as they were if and only if this holds. */
  ghost predicate ComesBack(p: char, s: string)
    decreases |s|
  {
    s != "" ==>
      && (Upper(s[0]) ==> Begins(p, s))
      && (Lower(s[0]) ==> !Digit(p))
      && ComesBack(s[0], s[1..])
  }

  lemma PascalCons(c: char, t: string, afterLetter: bool)
    ensures Pascal([c] + t, afterLetter)
            == if c == '_' then Pascal(t, false)
               else [if afterLetter then ToLower(c) else ToUpper(c)] + Pascal(t, Letter(c))
  {
    assert ([c] + t)[1..] == t;
  }

  /** The first character of what comes back. */
  function FirstBack(p: char, s: string): char
    requires s != ""
  {
    if Begins(p, s) || !Letter(p) then ToUpper(ToLower(s[0])) else ToLower(s[0])
  }

  lemma LowerStaysLetter(c: char)
    requires Letter(c) || Digit(c)
    ensures Letter(ToLower(c)) == Letter(c) && ToLower(c) != '_' && ToLower('_') == '_' && !Letter('_')
    ensures !Letter(c) ==> ToLower(c) == c && ToUpper(c) == c
  {
  }

  lemma PascalOf(c: char, more: string, afterLetter: bool)
    requires Letter(c) || Digit(c)
    ensures Pascal(LowerAll([c] + more), afterLetter)
            == [if afterLetter then ToLower(c) else ToUpper(ToLower(c))] + Pascal(LowerAll(more), Letter(c))
    ensures Pascal(LowerAll(['_'] + ([c] + more)), afterLetter)
            == [ToUpper(ToLower(c))] + Pascal(LowerAll(more), Letter(c))
  {
    LowerStaysLetter(c);
    hide Pascal, LowerAll, ToUpper, ToLower, Letter, Replace;
    ConsCase(c, more);
    ConsCase('_', [c] + more);
    PascalCons(ToLower(c), LowerAll(more), afterLetter);
    PascalCons('_', LowerAll([c] + more), afterLetter);
    PascalCons(ToLower(c), LowerAll(more), false);
  }

  lemma PascalStep(p: char, s: string)
    requires s != "" && Alphanumeric(s) && (Letter(p) || Digit(p))
    ensures Pascal(LowerAll(Separated(p, s, '_')), Letter(p))
            == [FirstBack(p, s)] + Pascal(LowerAll(Separated(s[0], s[1..], '_')), Letter(s[0]))
  {
    var more := Separated(s[0], s[1..], '_');
    assert Separated(p, s, '_') == if Begins(p, s) then ['_'] + ([s[0]] + more) else [s[0]] + more by {
      assert ['_', s[0]] + more == ['_'] + ([s[0]] + more);
    }
    assert Letter(s[0]) || Digit(s[0]);
    hide Pascal, LowerAll, Separated, Begins, ToUpper, ToLower, Letter, Digit, Alphanumeric;
    PascalOf(s[0], more, Letter(p));
  }

  lemma {:induction false} WordsComeBackIff(p: char, s: string)
    requires Alphanumeric(s) && (Letter(p) || Digit(p))
    ensures Pascal(LowerAll(Separated(p, s, '_')), Letter(p)) == s <==> ComesBack(p, s)
    ensures |Pascal(LowerAll(Separated(p, s, '_')), Letter(p))| == |s|
    decreases |s|
  {
    if s != "" {
      PascalStep(p, s);
      hide Pascal, LowerAll, Separated;
      WordsComeBackIff(s[0], s[1..]);
      assert s == [s[0]] + s[1..];
      FirstAndRest(s, Pascal(LowerAll(Separated(s[0], s[1..], '_')), Letter(s[0])));
    }
  }

  lemma FirstAndRest(s: string, tail: string)
    requires s != ""
    ensures forall c: char :: [c] + tail == s <==> c == s[0] && tail == s[1..]
  {
    forall c: char | [c] + tail == s
      ensures c == s[0] && tail == s[1..]
    {
      assert ([c] + tail)[1..] == tail;
    }
  }

  /** The character can be told apart: of two capitals in a row the second starts a word of lower-case letters, and no
      lower-case letter follows a digit. */
  predicate ToldApart(s: string, i: nat)
    requires 0 < i < |s|
  {
    && (Upper(s[i]) && Upper(s[i - 1]) ==> i + 1 < |s| && Lower(s[i + 1]))
    && (Lower(s[i]) ==> !Digit(s[i - 1]))
  }

  ghost predicate GoodName(s: string) {
    && s != "" && Alphanumeric(s) && !Upper(s[0])
    && forall i :: 0 < i < |s| ==> ToldApart(s, i)
  }

  lemma {:induction false} ComesBackIs(s: string, n: nat)
    requires Alphanumeric(s) && 0 < n <= |s|
    ensures ComesBack(s[n - 1], s[n..]) <==> forall i :: n <= i < |s| ==> ToldApart(s, i)
    decreases |s| - n
  {
    if n < |s| {
      assert s[n..][0] == s[n] && s[n..][1..] == s[n + 1..];
      assert |s[n..]| > 1 ==> s[n..][1] == s[n + 1];
      assert Letter(s[n - 1]) || Digit(s[n - 1]);
      ComesBackIs(s, n + 1);
      assert ComesBack(s[n - 1], s[n..]) <==> ToldApart(s, n) && ComesBack(s[n], s[n + 1..]);
    }
  }

  lemma CamelOfWords(s: string)
    requires s != "" && Alphanumeric(s)
    ensures ToCamelCase(Words(s, '_'))
            == Some([ToLower(s[0])] + Pascal(LowerAll(Separated(s[0], s[1..], '_')), Letter(s[0])))
  {
    var more := Separated(s[0], s[1..], '_');
    ConsCase(s[0], more);
    PascalCaseIs(Words(s, '_'));
    PascalCons(ToLower(s[0]), LowerAll(more), false);
    hide Pascal, LowerAll, Separated;
    var tail := Pascal(LowerAll(more), Letter(s[0]));
    assert ([ToUpper(ToLower(s[0]))] + tail)[1..] == tail;
  }

  /** From the API name to the command-line name, to the argument name and back: the name is restored if and only if it
      does not start with a capital and all its characters can be told apart. */
  lemma {:induction false} NameRoundTripIff(s: string)
    requires s != "" && Alphanumeric(s)
    ensures ToCamelCase(ToSnakeCase(ToKebabCase(s))) == Some(s) <==> GoodName(s)
  {
    SnakeByKebab(s);
    CamelOfWords(s);
    RestIsAlphanumeric(s);
    WordsComeBackIff(s[0], s[1..]);
    ComesBackIs(s, 1);
    hide Pascal, LowerAll, Separated, Words, ToCamelCase, ToSnakeCase, ToKebabCase, ComesBack, ToldApart;
    FirstAndRest(s, Pascal(LowerAll(Separated(s[0], s[1..], '_')), Letter(s[0])));
  }

  lemma RestIsAlphanumeric(s: string)
    requires s != "" && Alphanumeric(s)
    ensures Alphanumeric(s[1..]) && (Letter(s[0]) || Digit(s[0]))
  {
  }

  // ------------------------------------------------------------ names made of words

  function Capitalized(word: string): string
    requires word != ""
  {
    [ToUpper(word[0])] + word[1..]
  }

  ghost predicate LowerWord(word: string) { forall i :: 0 <= i < |word| ==> Lower(word[i]) }

  function InCamel(words: seq<string>): string
    requires forall i :: 0 <= i < |words| ==> words[i] != ""
  {
    if words == [] then "" else Capitalized(words[0]) + InCamel(words[1..])
  }

  function InKebab(words: seq<string>): string {
    if words == [] then "" else ['-'] + (words[0] + InKebab(words[1..]))
  }

  lemma KebabCons(p: char, c: char, t: string)
    ensures LowerAll(Separated(p, [c] + t, '-'))
            == (if Begins(p, [c] + t) then ['-', ToLower(c)] else [ToLower(c)]) + LowerAll(Separated(c, t, '-'))
  {
    var more := Separated(c, t, '-');
    SeparatedCons(p, c, t, '-');
    hide Separated;
    ConsCase(c, more);
    ConsCase('-', [c] + more);
    Reassociate(['-'], [c], more);
    Reassociate(['-'], [ToLower(c)], LowerAll(more));
    assert ['-'] + [c] == ['-', c] && ['-'] + [ToLower(c)] == ['-', ToLower(c)];
  }

  lemma {:induction false} LowerWordPasses(p: char, word: string, rest: string)
    requires LowerWord(word)
    ensures var last := if word == "" then p else word[|word| - 1];
            LowerAll(Separated(p, word + rest, '-')) == word + LowerAll(Separated(last, rest, '-'))
    decreases |word|
  {
    if word == "" {
      assert word + rest == rest;
    } else {
      LowerWordPasses(word[0], word[1..], rest);
      KebabCons(p, word[0], word[1..] + rest);
      hide Separated, LowerAll;
      FirstOf(word, rest);
      FirstOf(word, LowerAll(Separated(word[|word| - 1], rest, '-')));
    }
  }

  lemma FirstOf(word: string, rest: string)
    requires word != ""
    ensures word + rest == [word[0]] + (word[1..] + rest)
  {
  }

  lemma {:induction false} WordsSeparate(p: char, words: seq<string>)
    requires Lower(p) && forall i :: 0 <= i < |words| ==> LowerWord(words[i]) && |words[i]| > 1
    ensures LowerAll(Separated(p, InCamel(words), '-')) == InKebab(words)
    decreases |words|
  {
    if words != [] {
      WordsSeparate(words[0][|words[0]| - 1], words[1..]);
      WordSeparates(p, words[0], InCamel(words[1..]));
    }
  }

  lemma WordSeparates(p: char, word: string, rest: string)
    requires Lower(p) && LowerWord(word) && |word| > 1
    ensures LowerAll(Separated(p, Capitalized(word) + rest, '-'))
            == ['-'] + (word + LowerAll(Separated(word[|word| - 1], rest, '-')))
  {
    var c := ToUpper(word[0]);
    KebabCons(p, c, word[1..] + rest);
    LowerWordPasses(c, word[1..], rest);
    hide Separated, LowerAll;
    Reassociate([c], word[1..], rest);
    var out := LowerAll(Separated(word[|word| - 1], rest, '-'));
    FirstOf(word, out);
    Reassociate(['-'], [word[0]], word[1..] + out);
    assert ['-'] + [word[0]] == ['-', word[0]];
  }

  lemma {:induction false} CamelChars(words: seq<string>)
    requires forall i :: 0 <= i < |words| ==> LowerWord(words[i]) && |words[i]| > 1
    ensures Alphanumeric(InCamel(words))
    decreases |words|
  {
    if words != [] {
      CamelChars(words[1..]);
    }
  }

  /** The command-line name of a name made of words is split exactly between the words. */
  lemma {:induction false} KebabOfWords(first: string, words: seq<string>)
    requires first != "" && LowerWord(first)
    requires forall i :: 0 <= i < |words| ==> LowerWord(words[i]) && |words[i]| > 1
    ensures ToKebabCase(first + InCamel(words)) == first + InKebab(words)
  {
    var name := first + InCamel(words);
    CamelChars(words);
    KebabIsWords(name);
    LowerWordPasses(first[0], first[1..], InCamel(words));
    WordsSeparate(first[|first| - 1], words);
    hide Separated, LowerAll, ToKebabCase, InCamel, InKebab;
    FirstOf(first, InCamel(words));
    FirstOf(first, InKebab(words));
    assert name[1..] == first[1..] + InCamel(words);
    ConsCase(name[0], Separated(name[0], name[1..], '-'));
  }

  // ------------------------------------------------------------ any text

  /** The text without separators. */
  function Bare(s: string): string {
    if s == "" then "" else (if s[0] == '-' || s[0] == '_' then "" else [s[0]]) + Bare(s[1..])
  }

  lemma {:induction false} BareAppend(s: string, t: string)
    ensures Bare(s + t) == Bare(s) + Bare(t)
    decreases |s|
  {
    if s == "" {
      assert s + t == t;
    } else {
      assert (s + t)[0] == s[0] && (s + t)[1..] == s[1..] + t;
      BareAppend(s[1..], t);
    }
  }

  lemma {:induction false} BareReplace(s: string, a: char, b: char)
    requires a in "-_" && b in "-_"
    ensures Bare(Replace(s, a, b)) == Bare(s)
    decreases |s|
  {
    if s != "" {
      BareReplace(s[1..], a, b);
    }
  }

  lemma {:induction false} BareLower(s: string)
    ensures Bare(LowerAll(s)) == LowerAll(Bare(s))
    decreases |s|
  {
    if s != "" {
      BareLower(s[1..]);
      var rest := Bare(s[1..]);
      assert ([s[0]] + rest)[0] == s[0] && ([s[0]] + rest)[1..] == rest && "" + rest == rest;
      assert LowerAll([s[0]] + rest) == [ToLower(s[0])] + LowerAll(rest);
    }
  }

  lemma {:induction false} BareWords(s: string, sep: char)
    requires sep in "-_"
    ensures Bare(SubWords(s, sep)) == Bare(s)
    decreases |s|
  {
    if s != "" {
      if |s| > 2 && s[0] != '\n' && Upper(s[1]) && Lower(s[2]) {
        var n := 2 + LowerRun(s[2..]);
        BareWords(s[n..], sep);
        BareAppend([s[0], sep, s[1]], s[2..n] + SubWords(s[n..], sep));
        BareAppend(s[2..n], SubWords(s[n..], sep));
        BareAppend(s[2..n], s[n..]);
        assert s[2..n] + s[n..] == s[2..];
        BareThree(s[0], sep, s[1]);
        BareAppend([s[0], s[1]], s[2..]);
        assert [s[0], s[1]] + s[2..] == s;
      } else {
        BareWords(s[1..], sep);
      }
    }
  }

  lemma BareThree(a: char, sep: char, b: char)
    requires sep in "-_"
    ensures Bare([a, sep, b]) == Bare([a, b])
  {
    assert [a, sep, b][1..] == [sep, b] && [sep, b][1..] == [b] && [a, b][1..] == [b] && [b][1..] == "";
  }

  lemma {:induction false} BareEdges(s: string, sep: char)
    requires sep in "-_"
    ensures Bare(SubEdges(s, sep)) == Bare(s)
    decreases |s|
  {
    if s != "" {
      if |s| > 1 && (Lower(s[0]) || Digit(s[0])) && Upper(s[1]) {
        BareEdges(s[2..], sep);
        BareAppend([s[0], sep, s[1]], SubEdges(s[2..], sep));
        BareThree(s[0], sep, s[1]);
        BareAppend([s[0], s[1]], s[2..]);
        assert [s[0], s[1]] + s[2..] == s;
      } else {
        BareEdges(s[1..], sep);
      }
    }
  }

  /** Any text at all: a converted name has only its own separator and no capitals, and but for separators it is the text
      in lower case. */
  lemma {:induction false} KeepsText(s: string)
    ensures Bare(ToKebabCase(s)) == LowerAll(Bare(s)) && Bare(ToSnakeCase(s)) == LowerAll(Bare(s))
    ensures forall c :: c in ToKebabCase(s) ==> c != '_' && !Upper(c)
    ensures forall c :: c in ToSnakeCase(s) ==> c != '-' && !Upper(c)
  {
    var k, n := Replace(SubWords(s, '-'), '_', '-'), Replace(SubWords(s, '_'), '-', '_');
    BareWords(s, '-');
    BareWords(s, '_');
    BareReplace(SubWords(s, '-'), '_', '-');
    BareReplace(SubWords(s, '_'), '-', '_');
    BareEdges(k, '-');
    BareEdges(n, '_');
    BareLower(SubEdges(k, '-'));
    BareLower(SubEdges(n, '_'));
    NoneLeft(SubWords(s, '-'), '_', '-');
    NoneLeft(SubWords(s, '_'), '-', '_');
    EdgesChars(k, '-', '_');
    EdgesChars(n, '_', '-');
    LowerChars(SubEdges(k, '-'), '_');
    LowerChars(SubEdges(n, '_'), '-');
  }

  lemma {:induction false} NoneLeft(s: string, a: char, b: char)
    requires a != b
    ensures a !in Replace(s, a, b)
    decreases |s|
  {
    if s != "" {
      NoneLeft(s[1..], a, b);
    }
  }

  lemma {:induction false} EdgesChars(s: string, sep: char, c: char)
    requires c !in s && c != sep
    ensures c !in SubEdges(s, sep)
    decreases |s|
  {
    if s != "" {
      if |s| > 1 && (Lower(s[0]) || Digit(s[0])) && Upper(s[1]) {
        EdgesChars(s[2..], sep, c);
      } else {
        EdgesChars(s[1..], sep, c);
      }
    }
  }

  lemma {:induction false} LowerChars(s: string, c: char)
    requires c !in s && !Letter(c)
    ensures c !in LowerAll(s) && forall d :: d in LowerAll(s) ==> !Upper(d)
    decreases |s|
  {
    if s != "" {
      LowerChars(s[1..], c);
    }
  }

  lemma {:induction false} TitlesOf(s: string)
    ensures JoinTitles(Split(s)) == "" <==> forall i :: 0 <= i < |s| ==> s[i] == '_'
    decreases |s|
  {
    if s != "" {
      TitlesOf(s[1..]);
      assert forall i :: 0 < i < |s| ==> s[i] == s[1..][i - 1];
      var rest := Split(s[1..]);
      if s[0] == '_' {
        assert Split(s)[1..] == rest;
      } else {
        assert Split(s)[0] != "" && Title(Split(s)[0], false) != "";
      }
    }
  }

  /** A camel-case name comes out unless there is nothing but underscores to convert. */
  lemma CamelNoneIff(s: string)
    ensures ToCamelCase(s).None? <==> forall i :: 0 <= i < |s| ==> s[i] == '_'
  {
    TitlesOf(s);
  }
}
