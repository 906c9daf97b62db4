/** Path segments as text: what the checkers read back from `key[name]`. */
module PathText {
  import opened Values

  predicate Contains(s: string, c: char) { exists i :: 0 <= i < |s| && s[i] == c }

  /** `re.search(pattern, s)` for a literal pattern. */
  predicate Search(pattern: string, s: string) {
    exists i :: 0 <= i <= |s| && pattern <= s[i..]
  }

  function FirstIndex(s: string, c: char): (i: nat)
    ensures i <= |s|
    ensures forall k :: 0 <= k < i ==> s[k] != c
    ensures i < |s| ==> s[i] == c
  {
    if s == [] || s[0] == c then 0 else 1 + FirstIndex(s[1..], c)
  }

  function LastIndex(s: string, c: char): (i: int)
    ensures -1 <= i < |s|
    ensures forall k :: i < k < |s| ==> s[k] != c
    ensures i >= 0 ==> s[i] == c
  {
    if s == [] then -1 else if s[|s| - 1] == c then |s| - 1 else LastIndex(s[..|s| - 1], c)
  }

  /** `extract_type_and_name_from_path` on text without line breaks: the type is what precedes the last `[`, the name
      is what lies between the first `[` and the last `]`; both must be non-empty or the call raises. */
  function ExtractTypeAndName(s: string): Option<(string, string)> {
    var last, first, close := LastIndex(s, '['), FirstIndex(s, '['), LastIndex(s, ']');
    if last < 1 || close <= first + 1 then None
    else Some((s[..last], s[first + 1..close]))
  }

  /** A name that survives the round trip through a path segment. */
  predicate Plain(s: string) { !Contains(s, '[') && !Contains(s, ']') }

  lemma IndexAt(a: string, c: char, b: string)
    ensures !Contains(a, c) ==> FirstIndex(a + [c] + b, c) == |a|
    ensures !Contains(b, c) ==> LastIndex(a + [c] + b, c) == |a|
  {
    var s := a + [c] + b;
    assert s[|a|] == c;
    assert forall k :: 0 <= k < |a| ==> s[k] == a[k];
    assert forall k :: |a| < k < |s| ==> s[k] == b[k - |a| - 1];
  }

  /** Reading a segment back gives the list key and the item name. */
  lemma ExtractRoundTrip(key: string, name: string)
    requires key != "" && name != "" && Plain(key) && Plain(name)
    ensures ExtractTypeAndName(Segment(key, Leaf(Str(name)))) == Some((key, name))
  {
    var s := Segment(key, Leaf(Str(name)));
    var rest := name + "]";
    assert s == key + ['['] + rest && s == (key + "[" + name) + [']'] + "";
    assert !Contains(rest, '[');
    IndexAt(key, '[', rest);
    IndexAt(key + "[" + name, ']', "");
    assert s[..|key|] == key && s[|key| + 1..|s| - 1] == name;
  }

  /** Segments of different lists or of differently named items differ, and no segment is a plain key. */
  lemma SegmentInjective(k: string, n: Node, l: string, m: Node)
    requires Plain(k) && Plain(l)
    ensures Segment(k, n) != l
    ensures Segment(k, n) == Segment(l, m) ==> k == l && Text(n) == Text(m)
  {
    var s, s' := Segment(k, n), Segment(l, m);
    assert s[..|k|] == k && s[|k|] == '[';
    assert s'[..|l|] == l && s'[|l|] == '[';
    assert s[|k| + 1..|s| - 1] == Text(n) && s'[|l| + 1..|s'| - 1] == Text(m);
    if s == s' {
      assert forall i :: 0 <= i < |k| ==> s[i] == k[i] && k[i] != '[';
      assert forall i :: 0 <= i < |l| ==> s'[i] == l[i] && l[i] != '[';
      assert |k| == |l|;
    }
  }

  /** Where `word[` starts at position `i`. */
  lemma MatchAt(word: string, s: string, i: nat)
    requires i <= |s| && word + "[" <= s[i..]
    ensures i + |word| < |s| && s[i + |word|] == '[' && s[i..i + |word|] == word
  {
    assert s[i..][|word|] == (word + "[")[|word|];
    assert s[i..][..|word|] == (word + "[")[..|word|];
  }

  /** A pattern with a bracket is not found in text without one. */
  lemma NotInPlain(word: string, s: string)
    requires Plain(s)
    ensures !Search(word + "[", s)
  {
    if i :| 0 <= i <= |s| && word + "[" <= s[i..] {
      MatchAt(word, s, i);
    }
  }

  /** `word[` is found in a segment exactly when the list key ends with the word. */
  lemma FoundInSegment(word: string, key: string, name: string)
    requires Plain(key) && Plain(name)
    ensures Search(word + "[", Segment(key, Leaf(Str(name)))) <==> |word| <= |key| && key[|key| - |word|..] == word
  {
    var s := Segment(key, Leaf(Str(name)));
    if i :| 0 <= i <= |s| && word + "[" <= s[i..] {
      MatchAt(word, s, i);
      OnlyBracket(key, name);
      assert key[i..] == s[i..|key|];
    }
    if |word| <= |key| && key[|key| - |word|..] == word {
      var i := |key| - |word|;
      assert s[i..] == key[i..] + "[" + name + "]";
      assert word + "[" <= s[i..];
    }
  }

  lemma OnlyBracket(key: string, name: string)
    requires Plain(key) && Plain(name)
    ensures var s := Segment(key, Leaf(Str(name)));
            forall i :: 0 <= i < |s| && s[i] == '[' ==> i == |key|
  {
    var s := Segment(key, Leaf(Str(name)));
    assert forall i :: 0 <= i < |key| ==> s[i] == key[i];
    assert forall i :: |key| < i < |s| - 1 ==> s[i] == name[i - |key| - 1];
  }

  // ------------------------------------------------------------ names that are no text

  predicate IsDigit(c: char) { '0' <= c <= '9' }

  /** The number that decimal digits stand for. */
  function Decimal(s: string): nat
    requires forall i :: 0 <= i < |s| ==> IsDigit(s[i])
    decreases |s|
  {
    if s == "" then 0
    else
      var last := s[|s| - 1];
      assert IsDigit(last);
      Decimal(s[..|s| - 1]) * 10 + (last as int - '0' as int)
  }

  lemma {:induction false} DigitsRead(n: nat)
    ensures Digits(n) != "" && forall i :: 0 <= i < |Digits(n)| ==> IsDigit(Digits(n)[i])
    ensures Decimal(Digits(n)) == n && (n > 0 ==> Digits(n)[0] != '0')
    decreases n
  {
    var last := ("0123456789")[n % 10];
    assert IsDigit(last) && last as int - '0' as int == n % 10;
    if n >= 10 {
      DigitsRead(n / 10);
      assert Digits(n)[..|Digits(n)| - 1] == Digits(n / 10);
    } else {
      assert Digits(n) == [last] && Digits(n)[..0] == "";
    }
  }

  /** A missing name, a truth value and a number as text: the number in decimals without leading zeros. */
  lemma TextOfScalars(b: bool, i: int)
    ensures Text(NONE) == "None" && Text(Leaf(Bool(b))) == if b then "True" else "False"
    ensures var digits := if i >= 0 then Text(Leaf(Int(i))) else Text(Leaf(Int(i)))[1..];
            && (i < 0 ==> Text(Leaf(Int(i)))[0] == '-')
            && (forall k :: 0 <= k < |digits| ==> IsDigit(digits[k]))
            && Decimal(digits) == (if i >= 0 then i else -i) && (i != 0 ==> digits[0] != '0')
  {
    DigitsRead(if i >= 0 then i else -i);
    assert i >= 0 ==> Text(Leaf(Int(i))) == Digits(i);
    assert i < 0 ==> Text(Leaf(Int(i))) == "-" + Digits(-i);
    hide Digits, Decimal, IsDigit;
    if i < 0 {
      assert ("-" + Digits(-i))[1..] == Digits(-i);
    }
  }
}
