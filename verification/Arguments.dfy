/** From the parsed command line to the request body: every argument goes back under its API name. */
module Arguments {
  import opened Values
  import opened NameCase

  /** A parameter of an operation as the command line knows it. */
  datatype Param = Param(name: string, body: bool)

  /** A value for a controller: an argument, or the whole body. */
  datatype Value = Arg(text: string) | Body(fields: map<string, string>)

  /** What was converted so far, and the arguments not used yet. */
  datatype Converted = Converted(body: map<string, string>, kwargs: map<string, Value>, unused: map<string, string>)

  /** One parameter; nothing when the argument is missing or its name has nothing to convert. */
  function Convert(c: Converted, param: Param): Option<Converted> {
    var name := ToSnakeCase(param.name);
    if name !in c.unused then None
    else
      var unused := c.unused - {name};
      if !param.body then Some(c.(kwargs := c.kwargs[name := Arg(c.unused[name])], unused := unused))
      else
        match ToCamelCase(name)
        case None => None
        case Some(field) => Some(c.(body := c.body[field := c.unused[name]], unused := unused))
  }

  function ConvertAll(c: Converted, params: seq<Param>): Option<Converted>
    decreases |params|
  {
    if params == [] then Some(c)
    else
      match Convert(c, params[0])
      case None => None
      case Some(c') => ConvertAll(c', params[1..])
  }

  // ------------------------------------------------------------ where every argument goes

  /** The argument that a parameter takes, and the body field that it fills, if the name has anything to convert. */
  function Takes(p: Param): string { ToSnakeCase(p.name) }

  function Fills(p: Param): Option<string> { ToCamelCase(ToSnakeCase(p.name)) }

  /** Every parameter has an argument of its own, and every body parameter a field. */
  ghost predicate Provided(params: seq<Param>, args: map<string, string>) {
    && (forall i :: 0 <= i < |params| ==> Takes(params[i]) in args && (params[i].body ==> Fills(params[i]).Some?))
    && forall i, j :: 0 <= i < j < |params| ==> Takes(params[i]) != Takes(params[j])
  }

  /** The last body parameter that fills the field. */
  ghost predicate LastFills(params: seq<Param>, i: int, field: string) {
    && 0 <= i < |params| && params[i].body && Fills(params[i]) == Some(field)
    && forall j :: i < j < |params| && params[j].body ==> Fills(params[j]) != Some(field)
  }

  /** The argument is not that of a parameter. */
  ghost predicate Free(params: seq<Param>, k: string) { forall i :: 0 <= i < |params| ==> Takes(params[i]) != k }

  /** It is that of a parameter that is not of the body. */
  ghost predicate Keyword(params: seq<Param>, k: string) {
    exists i :: 0 <= i < |params| && !params[i].body && Takes(params[i]) == k
  }

  /** The body has exactly the fields of the body parameters, each with the argument of the last one that fills it. */
  ghost predicate BodyOf(body: map<string, string>, params: seq<Param>, args: map<string, string>) {
    && (forall field :: field in body <==> exists i :: LastFills(params, i, field))
    && forall i, field :: LastFills(params, i, field) && Takes(params[i]) in args && field in body ==>
         body[field] == args[Takes(params[i])]
  }

  /** The keyword arguments: those of the other parameters, those of no parameter, and the body under its name. */
  ghost predicate KeywordsOf(kwargs: map<string, Value>, body: map<string, string>, bodyName: Option<string>,
                             params: seq<Param>, args: map<string, string>)
  {
    var named := bodyName.Some? && bodyName.value != "";
    && (named ==> bodyName.value in kwargs && kwargs[bodyName.value] == Body(body))
    && forall k :: !(named && k == bodyName.value) ==>
         && (k in kwargs <==> k in args && (Free(params, k) || Keyword(params, k)))
         && (k in kwargs ==> k in args && kwargs[k] == Arg(args[k]))
  }

  /** What is converted after some parameters. */
  ghost predicate ConvertedOf(c: Converted, params: seq<Param>, args: map<string, string>) {
    && BodyOf(c.body, params, args)
    && (forall k :: k in c.kwargs <==> k in args && Keyword(params, k))
    && (forall k :: k in c.kwargs ==> k in args && c.kwargs[k] == Arg(args[k]))
    && (forall k :: k in c.unused <==> k in args && Free(params, k))
    && (forall k :: k in c.unused ==> k in args && c.unused[k] == args[k])
  }

  lemma ProvidedNext(params: seq<Param>, p: Param, args: map<string, string>)
    ensures Provided(params + [p], args) <==>
            && Provided(params, args) && Takes(p) in args && Free(params, Takes(p)) && (p.body ==> Fills(p).Some?)
  {
    hide Takes, Fills;
    var all := params + [p];
    assert all[|params|] == p && forall i :: 0 <= i < |params| ==> all[i] == params[i];
  }

  lemma FieldNext(body: map<string, string>, params: seq<Param>, p: Param, args: map<string, string>, field: string)
    requires BodyOf(body, params, args) && p.body && Fills(p) == Some(field) && Takes(p) in args
    ensures BodyOf(body[field := args[Takes(p)]], params + [p], args)
  {
    hide Takes, Fills;
    var all := params + [p];
    assert all[|params|] == p && forall i :: 0 <= i < |params| ==> all[i] == params[i];
    assert LastFills(all, |params|, field);
    forall i, g
      ensures LastFills(all, i, g) <==> (if i == |params| then g == field else g != field && LastFills(params, i, g))
    {
    }
  }

  lemma OtherNext(body: map<string, string>, params: seq<Param>, p: Param, args: map<string, string>)
    requires BodyOf(body, params, args) && !p.body
    ensures BodyOf(body, params + [p], args)
  {
    hide Takes, Fills;
    var all := params + [p];
    assert all[|params|] == p && forall i :: 0 <= i < |params| ==> all[i] == params[i];
    forall i, g
      ensures LastFills(all, i, g) <==> LastFills(params, i, g)
    {
    }
  }

  lemma FreeNext(params: seq<Param>, p: Param)
    ensures forall k :: Free(params + [p], k) <==> Free(params, k) && Takes(p) != k
    ensures forall k :: Keyword(params + [p], k) <==> Keyword(params, k) || (!p.body && Takes(p) == k)
  {
    hide Takes;
    var all := params + [p];
    assert all[|params|] == p && forall i :: 0 <= i < |params| ==> all[i] == params[i];
  }

  /** One more parameter. */
  lemma ConvertNext(c: Converted, params: seq<Param>, p: Param, args: map<string, string>)
    requires ConvertedOf(c, params, args)
    ensures Convert(c, p).Some? <==> Takes(p) in args && Free(params, Takes(p)) && (p.body ==> Fills(p).Some?)
    ensures Convert(c, p).Some? ==> ConvertedOf(Convert(c, p).value, params + [p], args)
  {
    hide ToSnakeCase, ToCamelCase, BodyOf, Free, Keyword;
    FreeNext(params, p);
    if Convert(c, p).Some? {
      assert c.unused[Takes(p)] == args[Takes(p)];
      if p.body {
        FieldNext(c.body, params, p, args, Fills(p).value);
      } else {
        OtherNext(c.body, params, p, args);
      }
    }
  }

  lemma {:induction false} ConvertAllExact(c: Converted, before: seq<Param>, params: seq<Param>, args: map<string, string>)
    requires ConvertedOf(c, before, args) && Provided(before, args)
    ensures ConvertAll(c, params).Some? <==> Provided(before + params, args)
    ensures ConvertAll(c, params).Some? ==> ConvertedOf(ConvertAll(c, params).value, before + params, args)
    decreases |params|
  {
    hide Convert, ConvertedOf, Provided, Free, Takes, Fills;
    if params == [] {
      assert before + params == before;
    } else {
      var p, rest := params[0], params[1..];
      assert (before + [p]) + rest == before + params;
      ProvidedNext(before, p, args);
      ConvertNext(c, before, p, args);
      if Convert(c, p).Some? {
        ConvertAllExact(Convert(c, p).value, before + [p], rest, args);
      } else {
        NotProvided(before + [p], rest, args);
      }
    }
  }

  lemma NotProvided(before: seq<Param>, rest: seq<Param>, args: map<string, string>)
    requires !Provided(before, args)
    ensures !Provided(before + rest, args)
  {
    hide Takes, Fills;
    var all := before + rest;
    assert forall i :: 0 <= i < |before| ==> all[i] == before[i];
  }

  lemma NothingConverted(args: map<string, string>)
    ensures ConvertedOf(Converted(map[], map[], args), [], args) && Provided([], args)
  {
  }

  function AsArgs(unused: map<string, string>): map<string, Value> { map k | k in unused :: Arg(unused[k]) }

  /** `convert_args`: it fails unless every parameter has an argument of its own; then every argument is in the body, under
      the field of its parameter, or among the keyword arguments under its own name. */
  method ConvertArgs(params: seq<Param>, bodyName: Option<string>, args: map<string, string>)
    returns (result: Option<(map<string, string>, map<string, Value>)>)
    ensures match ConvertAll(Converted(map[], map[], args), params)
            case None => result == None
            case Some(c) =>
              result == Some((c.body, if bodyName.Some? && bodyName.value != ""
                                      then (c.kwargs + AsArgs(c.unused))[bodyName.value := Body(c.body)]
                                      else c.kwargs + AsArgs(c.unused)))
    ensures result.Some? <==> Provided(params, args)
    ensures result.Some? ==> BodyOf(result.value.0, params, args)
                             && KeywordsOf(result.value.1, result.value.0, bodyName, params, args)
  {
    hide ToSnakeCase, ToCamelCase, Provided, BodyOf, KeywordsOf;
    var body: map<string, string>, kwargs: map<string, Value>, unused := map[], map[], args;
    ghost var total := ConvertAll(Converted(map[], map[], args), params);
    assert params[0..] == params && [] + params == params;
    NothingConverted(args);
    ConvertAllExact(Converted(map[], map[], args), [], params, args);
    for i := 0 to |params|
      invariant ConvertAll(Converted(body, kwargs, unused), params[i..]) == total
    {
      assert params[i..][0] == params[i] && params[i..][1..] == params[i + 1..];
      var name := ToSnakeCase(params[i].name);
      if name !in unused {
        return None;
      }
      var value := unused[name];
      unused := unused - {name};
      if params[i].body {
        var field := ToCamelCase(name);
        if field.None? {
          return None;
        }
        body := body[field.value := value];
      } else {
        kwargs := kwargs[name := Arg(value)];
      }
    }
    kwargs := kwargs + AsArgs(unused);
    if bodyName.Some? && bodyName.value != "" {
      kwargs := kwargs[bodyName.value := Body(body)];
    }
    result := Some((body, kwargs));
    KeywordsExact(total.value, bodyName, params, args);
  }

  lemma KeywordsExact(c: Converted, bodyName: Option<string>, params: seq<Param>, args: map<string, string>)
    requires ConvertedOf(c, params, args)
    ensures var all := c.kwargs + AsArgs(c.unused);
            KeywordsOf(if bodyName.Some? && bodyName.value != "" then all[bodyName.value := Body(c.body)] else all, c.body,
                       bodyName, params, args)
    ensures BodyOf(c.body, params, args)
  {
    hide Takes, Fills, BodyOf;
  }

  /** `_resolve_body`: the body parameters of an operation with these API properties. */
  function BodyParams(names: seq<string>): seq<Param> {
    if names == [] then [] else [Param(ToKebabCase(names[0]), true)] + BodyParams(names[1..])
  }

  /** The argument name of an API property. */
  function ArgName(name: string): string { ToSnakeCase(ToKebabCase(name)) }

  ghost predicate Properties(names: seq<string>) {
    && (forall i :: 0 <= i < |names| ==> GoodName(names[i]))
    && (forall i, j :: 0 <= i < j < |names| ==> names[i] != names[j])
  }

  /** Different API names have different argument names. */
  lemma ArgNameInjective(a: string, b: string)
    requires GoodName(a) && GoodName(b) && ArgName(a) == ArgName(b)
    ensures a == b
  {
    NameRoundTripIff(a);
    NameRoundTripIff(b);
  }

  lemma FieldOf(c: Converted, name: string)
    requires GoodName(name) && ArgName(name) in c.unused
    ensures Convert(c, Param(ToKebabCase(name), true))
            == Some(c.(body := c.body[name := c.unused[ArgName(name)]], unused := c.unused - {ArgName(name)}))
  {
    NameRoundTripIff(name);
    hide ToSnakeCase, ToCamelCase, ToKebabCase, GoodName;
  }

  /** The result has the properties as body fields, each with its argument, and no other argument is used up. */
  ghost predicate HasFields(names: seq<string>, c: Converted, result: Converted)
    requires forall i :: 0 <= i < |names| ==> ArgName(names[i]) in c.unused
  {
    && result.kwargs == c.kwargs
    && result.body.Keys == c.body.Keys + (set i | 0 <= i < |names| :: names[i])
    && (forall k :: k in c.body ==> result.body[k] == c.body[k])
    && (forall i :: 0 <= i < |names| ==> result.body[names[i]] == c.unused[ArgName(names[i])])
    && result.unused.Keys == c.unused.Keys - (set i | 0 <= i < |names| :: ArgName(names[i]))
  }

  lemma FieldsTogether(names: seq<string>, c: Converted, c': Converted, result: Converted)
    requires names != [] && forall i :: 0 <= i < |names| ==> ArgName(names[i]) in c.unused
    requires forall i :: 0 <= i < |names[1..]| ==> ArgName(names[1..][i]) != ArgName(names[0]) && names[1..][i] != names[0]
    requires names[0] !in c.body
    requires c' == c.(body := c.body[names[0] := c.unused[ArgName(names[0])]], unused := c.unused - {ArgName(names[0])})
    requires forall i :: 0 <= i < |names[1..]| ==> ArgName(names[1..][i]) in c'.unused
    requires HasFields(names[1..], c', result)
    ensures HasFields(names, c, result)
  {
    hide ArgName;
    FirstAndOthers(names);
    assert forall i :: 0 < i < |names| ==> names[i] == names[1..][i - 1];
  }

  /** When the command line gives an argument for every property of the request body, the body has exactly the API
      property names, each with its argument, and nothing else is used up. */
  lemma {:induction false} BodyHasApiNames(names: seq<string>, c: Converted)
    requires Properties(names)
    requires forall i :: 0 <= i < |names| ==> ArgName(names[i]) in c.unused && names[i] !in c.body
    ensures ConvertAll(c, BodyParams(names)).Some?
    ensures HasFields(names, c, ConvertAll(c, BodyParams(names)).value)
    decreases |names|
  {
    hide ToSnakeCase, ToCamelCase, ToKebabCase, GoodName, ArgName, Convert, HasFields;
    if names == [] {
      NoFields(c);
    } else {
      var name, rest := names[0], names[1..];
      FieldOf(c, name);
      var c' := Convert(c, Param(ToKebabCase(name), true)).value;
      assert forall i :: 0 <= i < |rest| ==> rest[i] == names[i + 1];
      forall i | 0 <= i < |rest|
        ensures ArgName(rest[i]) != ArgName(name)
      {
        if ArgName(rest[i]) == ArgName(name) {
          ArgNameInjective(rest[i], name);
        }
      }
      BodyHasApiNames(rest, c');
      assert BodyParams(names)[1..] == BodyParams(rest);
      assert ConvertAll(c, BodyParams(names)) == ConvertAll(c', BodyParams(rest));
      FieldsTogether(names, c, c', ConvertAll(c', BodyParams(rest)).value);
    }
  }

  lemma NoFields(c: Converted)
    ensures HasFields([], c, c)
  {
  }

  lemma FirstAndOthers(names: seq<string>)
    requires names != []
    ensures (set i | 0 <= i < |names| :: names[i]) == {names[0]} + (set i | 0 <= i < |names[1..]| :: names[1..][i])
    ensures (set i | 0 <= i < |names| :: ArgName(names[i]))
            == {ArgName(names[0])} + (set i | 0 <= i < |names[1..]| :: ArgName(names[1..][i]))
  {
    hide ArgName;
    assert forall i :: 0 <= i < |names[1..]| ==> names[1..][i] == names[i + 1];
    assert forall i :: 0 < i < |names| ==> names[i] == names[1..][i - 1];
  }
}
