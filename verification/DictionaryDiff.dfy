/** The recursive dictionary difference: dotted paths of the leaves where two dictionaries differ. */
module DictionaryDiff {
  import opened Values

  /** `f"{path}.{key}" if path else str(key)`. */
  function Join(path: string, key: string): string {
    if path == "" then key else path + "." + key
  }

  /** The paths `_collect_diff_for_key` and `_collect_leaves` give for a value that only one side has. */
  function Leaves(v: Json, path: string): set<string> {
    match v
    case Obj(m) =>
      if m == map[] then {path} else set k, p | k in m && p in Leaves(m[k], Join(path, k)) :: p
    case _ => {path}
  }

  /** `get_dictionary_diff` on two dictionaries. */
  function Diff(d1: Json, d2: Json, path: string): set<string>
    requires d1.Obj? && d2.Obj?
    decreases d1, 0
  {
    match d1
    case Obj(m1) =>
      var m2 := d2.fields;
      (set k, p | k in m1 && p in DiffAt(m1[k], m2, k, path) :: p)
      + (set k, p | k in m2 && k !in m1 && p in Leaves(m2[k], Join(path, k)) :: p)
  }

  /** The differing paths below a key that the first dictionary has. */
  function DiffAt(v1: Json, m2: map<string, Json>, k: string, path: string): set<string>
    decreases v1, 1
  {
    if k !in m2 then Leaves(v1, Join(path, k))
    else if v1.Obj? && m2[k].Obj? then Diff(v1, m2[k], Join(path, k))
    else if v1 != m2[k] then {Join(path, k)}
    else {}
  }

  // ------------------------------------------------------------ reading a dictionary along a list of keys

  /** The value under a list of keys, if every key on the way is there. */
  function At(d: Json, ks: seq<string>): Option<Json>
    decreases |ks|
  {
    if ks == [] then Some(d)
    else if d.Obj? && ks[0] in d.fields then At(d.fields[ks[0]], ks[1..])
    else None
  }

  /** The dotted text of a list of keys below a path. */
  function Dotted(path: string, ks: seq<string>): string
    decreases |ks|
  {
    if ks == [] then path else Dotted(Join(path, ks[0]), ks[1..])
  }

  predicate Leaf(v: Json) { v.Obj? ==> v.fields == map[] }

  /** Both dictionaries have a value there, but not two dictionaries: the comparison goes no deeper. */
  predicate Stops(d1: Json, d2: Json, ks: seq<string>) {
    At(d1, ks).Some? && At(d2, ks).Some? && !(At(d1, ks).value.Obj? && At(d2, ks).value.Obj?)
  }

  /** What a reported list of keys means: no shorter one ends the comparison, and there either two values differ that
      are not both dictionaries, or one dictionary has a leaf and the other nothing. */
  ghost predicate Differs(d1: Json, d2: Json, ks: seq<string>) {
    && (forall n :: 0 < n < |ks| ==> !Stops(d1, d2, ks[..n]))
    && var r1, r2 := At(d1, ks), At(d2, ks);
       || (Stops(d1, d2, ks) && r1 != r2)
       || (r1.Some? && r2.None? && Leaf(r1.value))
       || (r1.None? && r2.Some? && Leaf(r2.value))
  }

  /** The keys on the way are not empty and contain no dot, so a dotted path stands for one list of keys. */
  ghost predicate PlainKeys(ks: seq<string>) {
    forall i :: 0 <= i < |ks| ==> PlainKey(ks[i])
  }

  predicate PlainKey(k: string) { k != "" && '.' !in k }

  ghost predicate PlainDict(d: Json) {
    match d
    case Obj(m) => forall k :: k in m ==> PlainKey(k) && PlainDict(m[k])
    case _ => true
  }

  // ------------------------------------------------------------ exactness

  lemma {:induction false} LeavesSound(v: Json, path: string, p: string) returns (ks: seq<string>)
    requires p in Leaves(v, path)
    ensures Dotted(path, ks) == p && At(v, ks).Some? && Leaf(At(v, ks).value)
    decreases v
  {
    if Leaf(v) {
      ks := [];
    } else {
      var m := v.fields;
      var k :| k in m && p in Leaves(m[k], Join(path, k));
      var rest := LeavesSound(m[k], Join(path, k), p);
      ks := [k] + rest;
      assert ks[1..] == rest;
    }
  }

  lemma {:induction false} LeavesComplete(v: Json, path: string, ks: seq<string>)
    requires At(v, ks).Some? && Leaf(At(v, ks).value)
    ensures Dotted(path, ks) in Leaves(v, path)
    decreases |ks|
  {
    if ks != [] {
      LeavesComplete(v.fields[ks[0]], Join(path, ks[0]), ks[1..]);
    }
  }

  /** Below a key that leads to two dictionaries, the comparison is the comparison of those. */
  lemma Shift(d1: Json, d2: Json, k: string, rest: seq<string>)
    requires d1.Obj? && d2.Obj? && k in d1.fields && k in d2.fields
    requires d1.fields[k].Obj? && d2.fields[k].Obj? && rest != []
    ensures Differs(d1, d2, [k] + rest) <==> Differs(d1.fields[k], d2.fields[k], rest)
  {
    var ks, v1, v2 := [k] + rest, d1.fields[k], d2.fields[k];
    assert ks[1..] == rest;
    forall n | 0 < n <= |rest|
      ensures Stops(d1, d2, ks[..n + 1]) <==> Stops(v1, v2, rest[..n])
    {
      assert ks[..n + 1][0] == k && ks[..n + 1][1..] == rest[..n];
    }
    assert !Stops(d1, d2, ks[..1]) by {
      assert ks[..1] == [k] && [k][1..] == [];
      assert At(d1, [k]) == Some(v1) && At(d2, [k]) == Some(v2);
    }
    assert ks[..|ks|] == ks && rest[..|rest|] == rest;
    if Differs(d1, d2, ks) {
      forall n | 0 < n < |rest|
        ensures !Stops(v1, v2, rest[..n])
      {
        assert !Stops(d1, d2, ks[..n + 1]);
      }
    }
    if Differs(v1, v2, rest) {
      forall n | 0 < n < |ks|
        ensures !Stops(d1, d2, ks[..n])
      {
        if n > 1 {
          assert !Stops(v1, v2, rest[..n - 1]);
        }
      }
    }
  }

  /** Every reported path is the dotted text of keys at which the dictionaries differ. */
  lemma {:induction false} ReportedDiffers(d1: Json, d2: Json, path: string, p: string) returns (ks: seq<string>)
    requires d1.Obj? && d2.Obj? && p in Diff(d1, d2, path)
    ensures ks != [] && Dotted(path, ks) == p && Differs(d1, d2, ks)
    decreases d1
  {
    var m1, m2 := d1.fields, d2.fields;
    if k :| k in m1 && p in DiffAt(m1[k], m2, k, path) {
      if k in m2 && m1[k].Obj? && m2[k].Obj? {
        var rest := ReportedDiffers(m1[k], m2[k], Join(path, k), p);
        ks := [k] + rest;
        assert ks[1..] == rest;
        Shift(d1, d2, k, rest);
      } else if k in m2 {
        ks := [k];
        assert [k][1..] == [] && At(m1[k], []) == Some(m1[k]) && At(m2[k], []) == Some(m2[k]);
        assert At(d1, ks) == Some(m1[k]) && At(d2, ks) == Some(m2[k]);
      } else {
        var rest := LeavesSound(m1[k], Join(path, k), p);
        ks := [k] + rest;
        assert ks[1..] == rest;
        OneSided(d1, d2, ks);
      }
    } else {
      var k :| k in m2 && k !in m1 && p in Leaves(m2[k], Join(path, k));
      var rest := LeavesSound(m2[k], Join(path, k), p);
      ks := [k] + rest;
      assert ks[1..] == rest;
      OneSided(d1, d2, ks);
    }
  }

  /** Where one dictionary lacks even the first key, no list of keys ends the comparison. */
  lemma OneSided(d1: Json, d2: Json, ks: seq<string>)
    requires d1.Obj? && d2.Obj? && ks != [] && (ks[0] !in d1.fields || ks[0] !in d2.fields)
    ensures forall n :: 0 < n <= |ks| ==> !Stops(d1, d2, ks[..n])
    ensures At(d1, ks).None? || At(d2, ks).None?
  {
    forall n | 0 < n <= |ks|
      ensures !Stops(d1, d2, ks[..n])
    {
      assert ks[..n][0] == ks[0];
    }
  }

  /** All keys at which the dictionaries differ are reported. */
  lemma {:induction false} DiffersReported(d1: Json, d2: Json, path: string, ks: seq<string>)
    requires d1.Obj? && d2.Obj? && ks != [] && Differs(d1, d2, ks)
    ensures Dotted(path, ks) in Diff(d1, d2, path)
    decreases |ks|
  {
    var m1, m2, k, rest := d1.fields, d2.fields, ks[0], ks[1..];
    assert ks == [k] + rest;
    if k in m1 && k in m2 {
      if m1[k].Obj? && m2[k].Obj? {
        if rest != [] {
          Shift(d1, d2, k, rest);
          DiffersReported(m1[k], m2[k], Join(path, k), rest);
          assert Dotted(path, ks) in DiffAt(m1[k], m2, k, path);
        } else {
          assert At(d1, ks) == Some(m1[k]) && At(d2, ks) == Some(m2[k]);
          assert false;
        }
      } else {
        assert ks[..1] == [k] && [k][1..] == [];
        assert At(d1, [k]) == Some(m1[k]) && At(d2, [k]) == Some(m2[k]);
        assert rest != [] ==> !Stops(d1, d2, ks[..1]);
        assert ks == [k] && m1[k] != m2[k];
        assert Dotted(path, ks) in DiffAt(m1[k], m2, k, path);
      }
    } else if k in m1 {
      LeavesComplete(m1[k], Join(path, k), rest);
      assert Dotted(path, ks) in DiffAt(m1[k], m2, k, path);
    } else {
      LeavesComplete(m2[k], Join(path, k), rest);
    }
  }

  /** A path is reported exactly when it is the text of keys at which the dictionaries differ. */
  lemma {:induction false} DiffExact(d1: Json, d2: Json, p: string)
    requires d1.Obj? && d2.Obj?
    ensures p in Diff(d1, d2, "") <==> exists ks :: ks != [] && Dotted("", ks) == p && Differs(d1, d2, ks)
  {
    if p in Diff(d1, d2, "") {
      var ks := ReportedDiffers(d1, d2, "", p);
    }
    if ks :| ks != [] && Dotted("", ks) == p && Differs(d1, d2, ks) {
      DiffersReported(d1, d2, "", ks);
    }
  }

  // ------------------------------------------------------------ consequences

  lemma DiffersSymmetric(d1: Json, d2: Json, ks: seq<string>)
    requires Differs(d1, d2, ks)
    ensures Differs(d2, d1, ks)
  {
    forall n | 0 < n < |ks|
      ensures !Stops(d2, d1, ks[..n])
    {
      assert !Stops(d1, d2, ks[..n]);
    }
  }

  /** The order of the two dictionaries does not matter. */
  lemma {:induction false} DiffSymmetric(d1: Json, d2: Json)
    requires d1.Obj? && d2.Obj?
    ensures Diff(d1, d2, "") == Diff(d2, d1, "")
  {
    DiffIncluded(d1, d2);
    DiffIncluded(d2, d1);
  }

  lemma {:induction false} DiffIncluded(d1: Json, d2: Json)
    requires d1.Obj? && d2.Obj?
    ensures Diff(d1, d2, "") <= Diff(d2, d1, "")
  {
    forall p | p in Diff(d1, d2, "")
      ensures p in Diff(d2, d1, "")
    {
      var ks := ReportedDiffers(d1, d2, "", p);
      DiffersSymmetric(d1, d2, ks);
      DiffersReported(d2, d1, "", ks);
    }
  }

  /** Nothing is reported if and only if the dictionaries are equal. */
  lemma {:induction false} DiffEmptyIffEqual(d1: Json, d2: Json, path: string)
    requires d1.Obj? && d2.Obj?
    ensures Diff(d1, d2, path) == {} <==> d1 == d2
    decreases d1
  {
    var m1, m2 := d1.fields, d2.fields;
    forall k | k in m1
      ensures DiffAt(m1[k], m2, k, path) == {} <==> k in m2 && m1[k] == m2[k]
    {
      if k !in m2 {
        LeavesNonEmpty(m1[k], Join(path, k));
      } else if m1[k].Obj? && m2[k].Obj? {
        DiffEmptyIffEqual(m1[k], m2[k], Join(path, k));
      }
    }
    forall k | k in m2 && k !in m1
      ensures Leaves(m2[k], Join(path, k)) != {}
    {
      LeavesNonEmpty(m2[k], Join(path, k));
    }
    if Diff(d1, d2, path) == {} {
      assert forall k :: k in m1 ==> DiffAt(m1[k], m2, k, path) <= Diff(d1, d2, path);
      assert m1.Keys == m2.Keys;
      assert m1 == m2;
    }
  }

  lemma {:induction false} LeavesNonEmpty(v: Json, path: string)
    ensures Leaves(v, path) != {}
    decreases v
  {
    if !Leaf(v) {
      var k :| k in v.fields;
      LeavesNonEmpty(v.fields[k], Join(path, k));
      var p :| p in Leaves(v.fields[k], Join(path, k));
      assert p in Leaves(v, path);
    }
  }

  /** A scalar that the other dictionary does not have in the same place is reported, itself or by a prefix. */
  lemma {:induction false} ScalarChangeReported(d1: Json, d2: Json, ks: seq<string>) returns (n: nat)
    requires d1.Obj? && d2.Obj?
    requires At(d1, ks).Some? && !At(d1, ks).value.Obj? && At(d2, ks) != At(d1, ks)
    ensures 0 < n <= |ks| && Dotted("", ks[..n]) in Diff(d1, d2, "")
  {
    n := 1;
    while n < |ks| && !Stops(d1, d2, ks[..n])
      invariant 1 <= n <= |ks|
      invariant forall i :: 0 < i < n ==> !Stops(d1, d2, ks[..i])
    {
      n := n + 1;
    }
    var us := ks[..n];
    assert forall i :: 0 <= i <= n ==> us[..i] == ks[..i];
    if n < |ks| {
      OnTheWay(d1, ks, n);
    } else {
      assert us == ks;
    }
    DiffersReported(d1, d2, "", us);
  }

  /** What lies strictly before a value is a dictionary. */
  lemma {:induction false} OnTheWay(d: Json, ks: seq<string>, n: nat)
    requires n < |ks| && At(d, ks).Some?
    ensures At(d, ks[..n]).Some? && At(d, ks[..n]).value.Obj?
    decreases n
  {
    if n > 0 {
      OnTheWay(d.fields[ks[0]], ks[1..], n - 1);
      assert ks[..n][1..] == ks[1..][..n - 1];
    }
  }

  /** If every reported path is in the updatable set, then a scalar that no updatable path covers reads the same in
      both dictionaries. */
  lemma {:induction false} UncoveredScalarsUnchanged(d1: Json, d2: Json, updatable: set<string>, ks: seq<string>)
    requires d1.Obj? && d2.Obj? && Diff(d1, d2, "") <= updatable
    requires forall n :: 0 < n <= |ks| ==> Dotted("", ks[..n]) !in updatable
    requires At(d1, ks).Some? && !At(d1, ks).value.Obj?
    ensures At(d2, ks) == At(d1, ks)
  {
    if At(d2, ks) != At(d1, ks) {
      var n := ScalarChangeReported(d1, d2, ks);
      assert false;
    }
  }

  // ------------------------------------------------------------ one path, one list of keys

  /** The text that a list of keys appends to a non-empty path. */
  function Tail(ks: seq<string>): string
    decreases |ks|
  {
    if ks == [] then "" else "." + ks[0] + Tail(ks[1..])
  }

  lemma {:induction false} DottedTail(path: string, ks: seq<string>)
    requires path != ""
    ensures Dotted(path, ks) == path + Tail(ks)
    decreases |ks|
  {
    if ks != [] {
      DottedTail(path + "." + ks[0], ks[1..]);
    }
  }

  /** Text before the first dot is read back, whatever follows. */
  lemma HeadUnique(a: string, b: string, s: string, t: string)
    requires PlainKey(a) && PlainKey(b) && a + s == b + t
    requires (s == "" || s[0] == '.') && (t == "" || t[0] == '.')
    ensures a == b && s == t
  {
    var x := a + s;
    assert forall i :: 0 <= i < |a| ==> x[i] == a[i] && a[i] in a;
    assert forall i :: 0 <= i < |b| ==> x[i] == b[i] && b[i] in b;
    assert s != "" ==> x[|a|] == '.';
    assert t != "" ==> x[|b|] == '.';
    assert |a| == |b|;
    assert a == x[..|a|] && b == x[..|b|] && s == x[|a|..] && t == x[|b|..];
  }

  lemma {:induction false} TailInjective(ks: seq<string>, ls: seq<string>)
    requires PlainKeys(ks) && PlainKeys(ls) && Tail(ks) == Tail(ls)
    ensures ks == ls
    decreases |ks|
  {
    if ks != [] && ls != [] {
      assert Tail(ks)[1..] == ks[0] + Tail(ks[1..]) && Tail(ls)[1..] == ls[0] + Tail(ls[1..]);
      HeadUnique(ks[0], ls[0], Tail(ks[1..]), Tail(ls[1..]));
      TailInjective(ks[1..], ls[1..]);
      assert ks == [ks[0]] + ks[1..] && ls == [ls[0]] + ls[1..];
    }
  }

  lemma {:induction false} DottedInjective(ks: seq<string>, ls: seq<string>)
    requires ks != [] && ls != [] && PlainKeys(ks) && PlainKeys(ls)
    requires Dotted("", ks) == Dotted("", ls)
    ensures ks == ls
  {
    DottedTail(ks[0], ks[1..]);
    DottedTail(ls[0], ls[1..]);
    HeadUnique(ks[0], ls[0], Tail(ks[1..]), Tail(ls[1..]));
    TailInjective(ks[1..], ls[1..]);
    assert ks == [ks[0]] + ks[1..] && ls == [ls[0]] + ls[1..];
  }

  lemma {:induction false} PlainPath(d: Json, ks: seq<string>)
    requires PlainDict(d) && At(d, ks).Some?
    ensures PlainKeys(ks)
    decreases |ks|
  {
    if ks != [] {
      PlainPath(d.fields[ks[0]], ks[1..]);
      assert ks == [ks[0]] + ks[1..];
    }
  }

  /** With keys that are not empty and hold no dot, a dotted path is reported exactly when the dictionaries differ at
      the one place it names. */
  lemma {:induction false} PlainPathReported(d1: Json, d2: Json, ks: seq<string>)
    requires d1.Obj? && d2.Obj? && PlainDict(d1) && PlainDict(d2)
    requires ks != [] && PlainKeys(ks)
    ensures Dotted("", ks) in Diff(d1, d2, "") <==> Differs(d1, d2, ks)
  {
    if Dotted("", ks) in Diff(d1, d2, "") {
      var ls := ReportedDiffers(d1, d2, "", Dotted("", ks));
      if At(d1, ls).Some? {
        PlainPath(d1, ls);
      } else {
        PlainPath(d2, ls);
      }
      DottedInjective(ks, ls);
    }
    if Differs(d1, d2, ks) {
      DiffersReported(d1, d2, "", ks);
    }
  }

  // ------------------------------------------------------------ the loops

  ghost function LeavesIn(m: map<string, Json>, keys: set<string>, path: string): set<string> {
    set k, p | k in keys && k in m && p in Leaves(m[k], Join(path, k)) :: p
  }

  ghost function DiffIn(m1: map<string, Json>, m2: map<string, Json>, keys: set<string>, path: string): set<string> {
    set k, p | k in keys && k in m1 && p in DiffAt(m1[k], m2, k, path) :: p
  }

  lemma LeavesInAdd(m: map<string, Json>, keys: set<string>, k: string, path: string)
    requires k in m
    ensures LeavesIn(m, keys + {k}, path) == LeavesIn(m, keys, path) + Leaves(m[k], Join(path, k))
  {
  }

  lemma DiffInAdd(m1: map<string, Json>, m2: map<string, Json>, keys: set<string>, k: string, path: string)
    requires k in m1
    ensures DiffIn(m1, m2, keys + {k}, path) == DiffIn(m1, m2, keys, path) + DiffAt(m1[k], m2, k, path)
  {
  }

  lemma DiffParts(d1: Json, d2: Json, path: string)
    requires d1.Obj? && d2.Obj?
    ensures var m1, m2 := d1.fields, d2.fields;
            Diff(d1, d2, path) == DiffIn(m1, m2, m1.Keys, path) + LeavesIn(m2, m2.Keys - m1.Keys, path)
  {
  }

  /** `_collect_leaves` for a non-empty dictionary, `_collect_diff_for_key` otherwise. */
  method CollectLeaves(v: Json, path: string) returns (leaves: set<string>)
    ensures leaves == Leaves(v, path)
    decreases v
  {
    if Leaf(v) {
      return {path};
    }
    leaves := {};
    var todo := v.fields.Keys;
    ghost var done: set<string> := {};
    while todo != {}
      invariant done + todo == v.fields.Keys
      invariant leaves == LeavesIn(v.fields, done, path)
      decreases todo
    {
      var k :| k in todo;
      var more := CollectLeaves(v.fields[k], Join(path, k));
      LeavesInAdd(v.fields, done, k, path);
      leaves, todo, done := leaves + more, todo - {k}, done + {k};
    }
    assert LeavesIn(v.fields, v.fields.Keys, path) == Leaves(v, path);
  }

  /** `get_dictionary_diff`. */
  method GetDictionaryDiff(d1: Json, d2: Json, path: string) returns (diffs: set<string>)
    requires d1.Obj? && d2.Obj?
    ensures diffs == Diff(d1, d2, path)
    decreases d1
  {
    var m1, m2 := d1.fields, d2.fields;
    diffs := {};
    var todo := m1.Keys;
    ghost var done: set<string> := {};
    while todo != {}
      invariant done + todo == m1.Keys
      invariant diffs == DiffIn(m1, m2, done, path)
      decreases todo
    {
      var k :| k in todo;
      var more := {};
      if k !in m2 {
        more := CollectLeaves(m1[k], Join(path, k));
      } else if m1[k].Obj? && m2[k].Obj? {
        more := GetDictionaryDiff(m1[k], m2[k], Join(path, k));
      } else if m1[k] != m2[k] {
        more := {Join(path, k)};
      }
      DiffInAdd(m1, m2, done, k, path);
      diffs, todo, done := diffs + more, todo - {k}, done + {k};
    }
    ghost var shared := diffs;
    todo, done := m2.Keys - m1.Keys, {};
    while todo != {}
      invariant done + todo == m2.Keys - m1.Keys
      invariant diffs == shared + LeavesIn(m2, done, path)
      decreases todo
    {
      var k :| k in todo;
      var more := CollectLeaves(m2[k], Join(path, k));
      LeavesInAdd(m2, done, k, path);
      diffs, todo, done := diffs + more, todo - {k}, done + {k};
    }
    DiffParts(d1, d2, path);
  }
}
