/**
 The extraction step of `ArgsParser` (src/lib/parser.ts, lines 40-83): it turns
 an already classified parse result and the command's declared option names
 into the final `name -> string | true` record.

 Tokenizing and classifying are done by an external library; its result is an
 input here (`ParserResult`).
 */
module Extraction {
  import opened Wrappers

  /**
   The classified parse result: the values given by name (a name may be given
   several times), the bare flags, and the positional token values in order.
   */
  datatype ParserResult = ParserResult(
    options: map<string, seq<string>>,
    flags: set<string>,
    ordered: seq<string>)

  /** A value of the output record: a string, or the boolean `true` of a flag. */
  datatype Value = Str(s: string) | True

  type OptionsMap = map<string, Value>

  /**
   The one key a plain JavaScript object never takes as its own property
   through `obj[key] = v` with a string or `true`: that assignment goes to
   the inherited `__proto__` setter, which ignores such values.
   */
  const ProtoKey: string := "__proto__"

  /**
   The assignment `optionsMap[key] = v` on the plain object created at line
   57: every key but `ProtoKey` is set to `v`; `ProtoKey` leaves the record as it was.
   */
  function Store(m: OptionsMap, key: string, v: Value): OptionsMap
  {
    if key == ProtoKey then m else m[key := v]
  }

  /** The value stored under `key`, or None when the record has no such key. */
  function Lookup(m: OptionsMap, key: string): Option<Value>
  {
    if key in m then Some(m[key]) else None
  }

  /** No declared name occurs twice. */
  predicate Distinct(names: seq<string>)
  {
    forall a, b :: 0 <= a < b < |names| ==> names[a] != names[b]
  }

  // ---------------------------------------------------------------------------
  // getOptionValues and getOrderedValues
  // ---------------------------------------------------------------------------

  /** `getOptionValues`: the values given by name, the empty list for a name never given. */
  function OptionValues(p: ParserResult, name: string): (r: seq<string>)
    ensures name in p.options ==> r == p.options[name]
    ensures name !in p.options ==> r == []
  {
    if name in p.options then p.options[name] else []
  }

  /** The declared option has at least one value given by name. */
  predicate HasNamed(p: ParserResult, name: string)
  {
    |OptionValues(p, name)| > 0
  }

  /** The first value given by name; later ones are never read. */
  function FirstNamed(p: ParserResult, name: string): string
    requires HasNamed(p, name)
  {
    OptionValues(p, name)[0]
  }

  /**
   `getOrderedValues`: one entry per declared option; entry `i` is the `i`-th
   positional token when there is one and null (None) otherwise.
   */
  function OrderedValues(p: ParserResult, commandOptions: seq<string>): (r: seq<Option<string>>)
    ensures |r| == |commandOptions|
    ensures forall i :: 0 <= i < |r| ==> (r[i].Some? <==> i < |p.ordered|)
    ensures forall i :: 0 <= i < |r| && r[i].Some? ==> r[i].value == p.ordered[i]
  {
    seq(|commandOptions|, i requires 0 <= i < |commandOptions| =>
      if i < |p.ordered| then Some(p.ordered[i]) else None)
  }

  /**
   Only the first `|commandOptions|` positional tokens are ever looked at:
   two parse results that agree on those give the same ordered values.
   */
  lemma OrderedValuesReadOnlyDeclaredPositions(p: ParserResult, q: ParserResult, commandOptions: seq<string>)
    requires |p.ordered| >= |commandOptions| && |q.ordered| >= |commandOptions|
    requires p.ordered[..|commandOptions|] == q.ordered[..|commandOptions|]
    ensures OrderedValues(p, commandOptions) == OrderedValues(q, commandOptions)
  {
  }

  // ---------------------------------------------------------------------------
  // The record extractOptions builds, step by step
  // ---------------------------------------------------------------------------

  /**
   The positional fill (lines 69-73) applied to `m` for the indices below `j`:
   every index with a positional value stores it under that index's declared name.
   */
  function Fill(m: OptionsMap, commandOptions: seq<string>, vals: seq<Option<string>>, j: nat): OptionsMap
    requires j <= |vals| == |commandOptions|
  {
    if j == 0 then m
    else
      var m' := Fill(m, commandOptions, vals, j - 1);
      if vals[j - 1].Some? then Store(m', commandOptions[j - 1], Str(vals[j - 1].value)) else m'
  }

  /**
   The record after the first `k` iterations of the loop over the declared
   options (lines 60-75), before any flag is written.
   */
  function Assigned(p: ParserResult, commandOptions: seq<string>, k: nat): OptionsMap
    requires k <= |commandOptions|
  {
    if k == 0 then map[]
    else
      var m := Assigned(p, commandOptions, k - 1);
      var name := commandOptions[k - 1];
      if HasNamed(p, name) then Store(m, name, Str(FirstNamed(p, name)))
      else Fill(m, commandOptions, OrderedValues(p, commandOptions), |commandOptions|)
  }

  /**
   The flag loop (lines 78-80): every flag is stored as `true` over `m`, except
   `ProtoKey`, which a plain object does not store.
   */
  function WithFlags(m: OptionsMap, flags: set<string>): (r: OptionsMap)
    ensures r.Keys == m.Keys + (flags - {ProtoKey})
    ensures forall f :: f in flags && f != ProtoKey ==> r[f] == True
    ensures forall key :: key in m && (key !in flags || key == ProtoKey) ==> r[key] == m[key]
  {
    m + map f | f in flags && f != ProtoKey :: True
  }

  /** The record `extractOptions` returns. */
  function Extract(p: ParserResult, commandOptions: seq<string>): OptionsMap
  {
    WithFlags(Assigned(p, commandOptions, |commandOptions|), p.flags)
  }

  // ---------------------------------------------------------------------------
  // extractOptions
  // ---------------------------------------------------------------------------

  /** `extractOptions`: named values first, positional fill, then flags. */
  method ExtractOptions(p: ParserResult, commandOptions: seq<string>) returns (optionsMap: OptionsMap)
    ensures optionsMap == Extract(p, commandOptions)
    ensures forall f :: f in p.flags && f != ProtoKey ==> f in optionsMap && optionsMap[f] == True
    ensures ProtoKey !in optionsMap
    ensures forall key :: key in optionsMap ==> key in commandOptions || key in p.flags
    ensures forall key :: key in optionsMap && key !in p.flags ==> optionsMap[key].Str?
  {
    optionsMap := map[];
    var k := 0;
    while k < |commandOptions|
      invariant 0 <= k <= |commandOptions|
      invariant optionsMap == Assigned(p, commandOptions, k)
    {
      var name := commandOptions[k];
      var optionValues := OptionValues(p, name);
      if |optionValues| > 0 {
        optionsMap := Store(optionsMap, name, Str(optionValues[0]));
      } else {
        var orderedValues := OrderedValues(p, commandOptions);
        ghost var before := optionsMap;
        var i := 0;
        while i < |orderedValues|
          invariant 0 <= i <= |orderedValues|
          invariant optionsMap == Fill(before, commandOptions, orderedValues, i)
        {
          if orderedValues[i].Some? {
            optionsMap := Store(optionsMap, commandOptions[i], Str(orderedValues[i].value));
          }
          i := i + 1;
        }
      }
      k := k + 1;
    }

    ghost var strings, stored := optionsMap, {};
    var rest := p.flags;
    while rest != {}
      invariant stored + rest == p.flags
      invariant optionsMap == WithFlags(strings, stored)
      decreases rest
    {
      var flag :| flag in rest;
      optionsMap := Store(optionsMap, flag, True);
      StoreFlag(strings, stored, flag);
      stored, rest := stored + {flag}, rest - {flag};
    }
    assert stored == p.flags;
    FlagsWin(p, commandOptions);
  }

  // ---------------------------------------------------------------------------
  // What the record holds
  // ---------------------------------------------------------------------------

  /** Storing one more flag over the flags stored so far is storing the larger set of flags. */
  lemma StoreFlag(m: OptionsMap, stored: set<string>, flag: string)
    ensures Store(WithFlags(m, stored), flag, True) == WithFlags(m, stored + {flag})
  {
  }

  /** The fill stores string values, and only under declared names other than `ProtoKey`. */
  lemma {:induction false} FillShape(m: OptionsMap, commandOptions: seq<string>, vals: seq<Option<string>>, j: nat)
    requires j <= |vals| == |commandOptions|
    ensures forall key :: key in Fill(m, commandOptions, vals, j) ==>
      (key in m && Fill(m, commandOptions, vals, j)[key] == m[key]) ||
      (key in commandOptions && key != ProtoKey && Fill(m, commandOptions, vals, j)[key].Str?)
  {
    if j > 0 {
      FillShape(m, commandOptions, vals, j - 1);
    }
  }

  /** Before the flags, the record holds string values under declared names other than `ProtoKey` only. */
  lemma {:induction false} AssignedShape(p: ParserResult, commandOptions: seq<string>, k: nat)
    requires k <= |commandOptions|
    ensures forall key :: key in Assigned(p, commandOptions, k) ==>
      key in commandOptions && key != ProtoKey && Assigned(p, commandOptions, k)[key].Str?
  {
    if k > 0 {
      AssignedShape(p, commandOptions, k - 1);
      if !HasNamed(p, commandOptions[k - 1]) {
        FillShape(Assigned(p, commandOptions, k - 1), commandOptions,
          OrderedValues(p, commandOptions), |commandOptions|);
      }
    }
  }

  /**
   Every key of the result is a declared name or a flag, and never `ProtoKey`;
   every other flag, declared or not, maps to `true`, overwriting any string
   stored under that name; every key that is not a flag maps to a string.
   */
  lemma FlagsWin(p: ParserResult, commandOptions: seq<string>)
    ensures forall f :: f in p.flags && f != ProtoKey ==> f in Extract(p, commandOptions) && Extract(p, commandOptions)[f] == True
    ensures ProtoKey !in Extract(p, commandOptions)
    ensures forall key :: key in Extract(p, commandOptions) ==> key in commandOptions || key in p.flags
    ensures forall key :: key in Extract(p, commandOptions) && key !in p.flags ==> Extract(p, commandOptions)[key].Str?
  {
    AssignedShape(p, commandOptions, |commandOptions|);
  }

  // ---------------------------------------------------------------------------
  // When every declared option is given by name
  // ---------------------------------------------------------------------------

  /** Each declared name (other than `ProtoKey`) mapped to its first named value. */
  function FirstNamedValues(p: ParserResult, names: seq<string>): (r: OptionsMap)
    requires forall n :: n in names ==> HasNamed(p, n)
    ensures r.Keys == set n | n in names && n != ProtoKey
  {
    map n | n in names && n != ProtoKey :: Str(FirstNamed(p, n))
  }

  lemma {:induction false} AssignedAllNamed(p: ParserResult, commandOptions: seq<string>, k: nat)
    requires k <= |commandOptions|
    requires forall n :: n in commandOptions ==> HasNamed(p, n)
    ensures Assigned(p, commandOptions, k) == FirstNamedValues(p, commandOptions[..k])
  {
    if k > 0 {
      AssignedAllNamed(p, commandOptions, k - 1);
      assert commandOptions[..k] == commandOptions[..k - 1] + [commandOptions[k - 1]];
    }
  }

  /**
   When every declared option has a value given by name, each one gets its
   first named value (later duplicates are ignored) and the positional tokens
   are never used; flags are then written over the result.
   */
  lemma FirstNamedValueWins(p: ParserResult, commandOptions: seq<string>)
    requires forall n :: n in commandOptions ==> HasNamed(p, n)
    ensures Extract(p, commandOptions) == WithFlags(FirstNamedValues(p, commandOptions), p.flags)
  {
    AssignedAllNamed(p, commandOptions, |commandOptions|);
    assert commandOptions[..|commandOptions|] == commandOptions;
  }

  // ---------------------------------------------------------------------------
  // The value a declared option ends up with
  // ---------------------------------------------------------------------------

  /** Some declared option at an index in [lo, hi) has no value given by name. */
  predicate LacksNamedIn(p: ParserResult, commandOptions: seq<string>, lo: int, hi: int)
    requires 0 <= lo && hi <= |commandOptions|
  {
    exists j :: lo <= j < hi && !HasNamed(p, commandOptions[j])
  }

  /**
   The string the declared option at index `i` ends up with, stated without
   the loop: the positional token at its own declaration index when there is
   one and the fill runs at or after index `i` (it has no named value, or a
   later-declared option has none); otherwise its first named value;
   otherwise nothing (the key is absent, never null). A declared name equal to
   `ProtoKey` is never stored at all.
   */
  function DeclaredValue(p: ParserResult, commandOptions: seq<string>, i: nat): Option<string>
    requires i < |commandOptions|
  {
    if commandOptions[i] == ProtoKey then None
    else if i < |p.ordered| && LacksNamedIn(p, commandOptions, i, |commandOptions|) then Some(p.ordered[i])
    else if HasNamed(p, commandOptions[i]) then Some(FirstNamed(p, commandOptions[i]))
    else None
  }

  /** The same, after only the first `k` declared options have been processed. */
  function ValueAfter(p: ParserResult, commandOptions: seq<string>, k: nat, i: nat): Option<string>
    requires k <= |commandOptions| && i < |commandOptions|
  {
    if i < |p.ordered| && LacksNamedIn(p, commandOptions, i, k) then Some(p.ordered[i])
    else if i < k && HasNamed(p, commandOptions[i]) then Some(FirstNamed(p, commandOptions[i]))
    else if i < |p.ordered| && LacksNamedIn(p, commandOptions, 0, k) then Some(p.ordered[i])
    else None
  }

  function AsValue(v: Option<string>): Option<Value>
  {
    match v
    case Some(s) => Some(Str(s))
    case None => None
  }

  /** With distinct names, the fill writes index `i` exactly when it has a positional value. */
  lemma {:induction false} FillAt(m: OptionsMap, commandOptions: seq<string>, vals: seq<Option<string>>, j: nat, i: nat)
    requires j <= |vals| == |commandOptions|
    requires Distinct(commandOptions) && i < |commandOptions|
    ensures Lookup(Fill(m, commandOptions, vals, j), commandOptions[i]) ==
      if i < j && vals[i].Some? && commandOptions[i] != ProtoKey then Some(Str(vals[i].value))
      else Lookup(m, commandOptions[i])
  {
    if j > 0 {
      FillAt(m, commandOptions, vals, j - 1, i);
    }
  }

  lemma {:induction false} AssignedAt(p: ParserResult, commandOptions: seq<string>, k: nat, i: nat)
    requires k <= |commandOptions| && i < |commandOptions|
    requires Distinct(commandOptions)
    ensures Lookup(Assigned(p, commandOptions, k), commandOptions[i]) ==
      if commandOptions[i] == ProtoKey then None else AsValue(ValueAfter(p, commandOptions, k, i))
  {
    if k > 0 {
      AssignedAt(p, commandOptions, k - 1, i);
      var name := commandOptions[k - 1];
      if HasNamed(p, name) {
        if i != k - 1 {
          if LacksNamedIn(p, commandOptions, i, k) {
            var j :| i <= j < k && !HasNamed(p, commandOptions[j]);
            assert LacksNamedIn(p, commandOptions, i, k - 1);
          }
          if LacksNamedIn(p, commandOptions, 0, k) {
            var j :| 0 <= j < k && !HasNamed(p, commandOptions[j]);
            assert LacksNamedIn(p, commandOptions, 0, k - 1);
          }
        }
      } else {
        FillAt(Assigned(p, commandOptions, k - 1), commandOptions,
          OrderedValues(p, commandOptions), |commandOptions|, i);
        assert LacksNamedIn(p, commandOptions, 0, k);
        if i < k {
          assert LacksNamedIn(p, commandOptions, i, k);
        }
      }
    }
  }

  /**
   With distinct declared names, the option at index `i` that is not also a
   flag maps to `DeclaredValue`: the positional token at its declaration index
   (a named value given to it is overwritten when some option declared at or
   after it has no named value), else its first named value, else it is absent.
   */
  lemma DeclaredOptionValue(p: ParserResult, commandOptions: seq<string>, i: nat)
    requires Distinct(commandOptions) && i < |commandOptions|
    requires commandOptions[i] !in p.flags
    ensures Lookup(Extract(p, commandOptions), commandOptions[i]) == AsValue(DeclaredValue(p, commandOptions, i))
  {
    AssignedAt(p, commandOptions, |commandOptions|, i);
    if commandOptions[i] != ProtoKey && !LacksNamedIn(p, commandOptions, i, |commandOptions|) {
      assert HasNamed(p, commandOptions[i]);
    }
  }

  // ---------------------------------------------------------------------------
  // Which keys the record has
  // ---------------------------------------------------------------------------

  /** The declared names (other than `ProtoKey`) that have a value given by name. */
  function NamedKeys(p: ParserResult, commandOptions: seq<string>, k: nat): set<string>
    requires k <= |commandOptions|
  {
    set j | 0 <= j < k && HasNamed(p, commandOptions[j]) && commandOptions[j] != ProtoKey :: commandOptions[j]
  }

  /** The declared names (other than `ProtoKey`) whose declaration index has a positional token. */
  function PositionalKeys(p: ParserResult, commandOptions: seq<string>): set<string>
  {
    set i | 0 <= i < |commandOptions| && i < |p.ordered| && commandOptions[i] != ProtoKey :: commandOptions[i]
  }

  lemma {:induction false} FillKeys(m: OptionsMap, commandOptions: seq<string>, vals: seq<Option<string>>, j: nat)
    requires j <= |vals| == |commandOptions|
    ensures Fill(m, commandOptions, vals, j).Keys ==
      m.Keys + set i | 0 <= i < j && vals[i].Some? && commandOptions[i] != ProtoKey :: commandOptions[i]
  {
    if j > 0 {
      FillKeys(m, commandOptions, vals, j - 1);
    }
  }

  lemma {:induction false} AssignedKeys(p: ParserResult, commandOptions: seq<string>, k: nat)
    requires k <= |commandOptions|
    ensures Assigned(p, commandOptions, k).Keys ==
      NamedKeys(p, commandOptions, k) +
      (if LacksNamedIn(p, commandOptions, 0, k) then PositionalKeys(p, commandOptions) else {})
  {
    if k > 0 {
      AssignedKeys(p, commandOptions, k - 1);
      var name := commandOptions[k - 1];
      if HasNamed(p, name) {
        if LacksNamedIn(p, commandOptions, 0, k) {
          var j :| 0 <= j < k && !HasNamed(p, commandOptions[j]);
          assert LacksNamedIn(p, commandOptions, 0, k - 1);
        }
      } else {
        var vals := OrderedValues(p, commandOptions);
        FillKeys(Assigned(p, commandOptions, k - 1), commandOptions, vals, |commandOptions|);
        assert LacksNamedIn(p, commandOptions, 0, k);
        assert (set i | 0 <= i < |commandOptions| && vals[i].Some? && commandOptions[i] != ProtoKey :: commandOptions[i])
          == PositionalKeys(p, commandOptions);
        assert name !in NamedKeys(p, commandOptions, k) ==> NamedKeys(p, commandOptions, k) == NamedKeys(p, commandOptions, k - 1);
      }
    }
  }

  /**
   The keys of the result are exactly: the flags, the declared names given by
   name, and, once any declared option lacks a named value, every declared
   name whose declaration index has a positional token; `ProtoKey` excepted.
   A declared option matched by neither is absent.
   */
  lemma ResultKeys(p: ParserResult, commandOptions: seq<string>)
    ensures Extract(p, commandOptions).Keys ==
      (p.flags - {ProtoKey}) + NamedKeys(p, commandOptions, |commandOptions|) +
      (if LacksNamedIn(p, commandOptions, 0, |commandOptions|) then PositionalKeys(p, commandOptions) else {})
  {
    AssignedKeys(p, commandOptions, |commandOptions|);
  }

  // ---------------------------------------------------------------------------
  // Positional tokens past the declared options
  // ---------------------------------------------------------------------------

  /** The positional tokens that can ever be read: one per declared option at most. */
  function DeclaredPositions(p: ParserResult, commandOptions: seq<string>): (q: ParserResult)
    ensures |q.ordered| <= |commandOptions|
  {
    p.(ordered := if |p.ordered| <= |commandOptions| then p.ordered else p.ordered[..|commandOptions|])
  }

  lemma {:induction false} AssignedSameOrderedValues(p: ParserResult, q: ParserResult, commandOptions: seq<string>, k: nat)
    requires k <= |commandOptions|
    requires p.options == q.options
    requires OrderedValues(p, commandOptions) == OrderedValues(q, commandOptions)
    ensures Assigned(p, commandOptions, k) == Assigned(q, commandOptions, k)
  {
    if k > 0 {
      AssignedSameOrderedValues(p, q, commandOptions, k - 1);
    }
  }

  /**
   Positional tokens beyond the number of declared options never reach the
   result: dropping them changes nothing.
   */
  lemma ExtraPositionalTokensIgnored(p: ParserResult, commandOptions: seq<string>)
    ensures Extract(DeclaredPositions(p, commandOptions), commandOptions) == Extract(p, commandOptions)
  {
    var q := DeclaredPositions(p, commandOptions);
    var vp, vq := OrderedValues(p, commandOptions), OrderedValues(q, commandOptions);
    forall i | 0 <= i < |commandOptions| ensures vp[i] == vq[i] {
    }
    AssignedSameOrderedValues(p, q, commandOptions, |commandOptions|);
  }

  // ---------------------------------------------------------------------------
  // Worked examples
  // ---------------------------------------------------------------------------

  /**
   The expected output of the repository's test (tests/parser.test.ts): options
   [name, age, flag1] passed as the array `runParser` declares (the test itself
   passes an object holding that array), and the content
   `option1 --age=10 --flag` classified as one positional token, `age=10` and
   flag `flag`. The undeclared flag appears; the unmatched `flag1` does not.
   */
  lemma RepositoryTestExample()
    ensures Extract(ParserResult(map["age" := ["10"]], {"flag"}, ["option1"]), ["name", "age", "flag1"])
      == map["name" := Str("option1"), "age" := Str("10"), "flag" := True]
  {
    var p := ParserResult(map["age" := ["10"]], {"flag"}, ["option1"]);
    var names := ["name", "age", "flag1"];
    assert !HasNamed(p, "name") && HasNamed(p, "age") && !HasNamed(p, "flag1");
    var vals := OrderedValues(p, names);
    assert vals == [Some("option1"), None, None];
    var m0: OptionsMap := map[];
    assert Fill(m0, names, vals, 1) == map["name" := Str("option1")];
    assert Fill(m0, names, vals, 3) == Fill(m0, names, vals, 1);
    var m2 := Assigned(p, names, 2);
    assert m2 == map["name" := Str("option1"), "age" := Str("10")];
    assert Fill(m2, names, vals, 1) == m2;
    assert Fill(m2, names, vals, 3) == Fill(m2, names, vals, 1);
  }

  /**
   A named value is overwritten by the positional fill of a later option:
   options [name, age], `name=x` given by name and positional `y` give
   `{name: "y"}` and no `age`.
   */
  lemma PositionalFillOverwritesNamedValue()
    ensures Extract(ParserResult(map["name" := ["x"]], {}, ["y"]), ["name", "age"]) == map["name" := Str("y")]
  {
    var p := ParserResult(map["name" := ["x"]], {}, ["y"]);
    var names := ["name", "age"];
    assert HasNamed(p, "name") && !HasNamed(p, "age");
    var vals := OrderedValues(p, names);
    assert vals == [Some("y"), None];
    var m1 := map["name" := Str("x")];
    assert Fill(m1, names, vals, 1) == map["name" := Str("y")];
    assert Fill(m1, names, vals, 2) == Fill(m1, names, vals, 1);
  }

  /**
   `__proto__` given as a flag, by name and as a declared option never becomes
   a key of the plain-object record.
   */
  lemma ProtoKeyNeverStored()
    ensures Extract(ParserResult(map[ProtoKey := ["x"]], {ProtoKey}, ["y"]), [ProtoKey, "age"]) == map[]
  {
    var p := ParserResult(map[ProtoKey := ["x"]], {ProtoKey}, ["y"]);
    var names := [ProtoKey, "age"];
    var vals := OrderedValues(p, names);
    assert vals == [Some("y"), None];
    assert HasNamed(p, ProtoKey) && !HasNamed(p, "age");
    var m0: OptionsMap := map[];
    assert Store(m0, ProtoKey, Str("x")) == m0;
    assert Assigned(p, names, 0) == m0;
    var m1 := Assigned(p, names, 1);
    assert m1 == Store(Assigned(p, names, 0), names[0], Str(FirstNamed(p, names[0])));
    assert Fill(m1, names, vals, 1) == m1;
    assert Fill(m1, names, vals, 2) == Fill(m1, names, vals, 1);
  }
}
