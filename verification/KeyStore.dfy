/** Stores of trusted keys. Parsing a C2SP key string is a parameter. */
module KeyStore {
  import opened Text
  import opened Hex

  type Kid = k: Bytes | |k| == 4 witness [0, 0, 0, 0]

  datatype TrustedKey = TrustedKey(name: string, kid: Kid, spki: Bytes)

  type Keys = map<Kid, TrustedKey>

  /** `ParseC2SPKey`; None is its error. */
  type Parser = string -> Option<TrustedKey>

  // ---------------------------------------------------------------- merging as a fold

  function MergeOne(parse: Parser, keys: Keys, s: string): Keys {
    match parse(s)
    case None => keys
    case Some(tk) => if tk.kid in keys then keys else keys[tk.kid := tk]
  }

  /** What a merge leaves in the store. */
  function Merged(parse: Parser, keys: Keys, strings: seq<string>): Keys {
    if strings == [] then keys
    else MergeOne(parse, Merged(parse, keys, strings[..|strings| - 1]), strings[|strings| - 1])
  }

  /** The first string that parses to a key with this kid. */
  function FirstBinding(parse: Parser, strings: seq<string>, kid: Kid): Option<TrustedKey> {
    if strings == [] then None
    else if parse(strings[0]).Some? && parse(strings[0]).value.kid == kid then parse(strings[0])
    else FirstBinding(parse, strings[1..], kid)
  }

  lemma {:induction false} FirstBindingOfPrefix(parse: Parser, init: seq<string>, last: string, kid: Kid)
    ensures FirstBinding(parse, init + [last], kid) ==
            if FirstBinding(parse, init, kid).Some? then FirstBinding(parse, init, kid)
            else FirstBinding(parse, [last], kid)
  {
    if init == [] {
      assert init + [last] == [last];
    } else {
      assert (init + [last])[1..] == init[1..] + [last];
      FirstBindingOfPrefix(parse, init[1..], last, kid);
    }
  }

  /** Main law: an existing binding stays, and a new kid is bound to its first parseable string. */
  lemma {:induction false} MergedBindings(parse: Parser, keys: Keys, strings: seq<string>, kid: Kid)
    ensures var m := Merged(parse, keys, strings);
            var first := FirstBinding(parse, strings, kid);
            && (kid in m <==> kid in keys || first.Some?)
            && (kid in keys ==> m[kid] == keys[kid])
            && (kid !in keys && first.Some? ==> m[kid] == first.value)
  {
    if strings != [] {
      var init, last := strings[..|strings| - 1], strings[|strings| - 1];
      MergedBindings(parse, keys, init, kid);
      FirstBindingOfPrefix(parse, init, last, kid);
      assert strings == init + [last];
    }
  }

  /** Merging a concatenation is merging the parts in turn. */
  lemma {:induction false} MergedConcat(parse: Parser, keys: Keys, a: seq<string>, b: seq<string>)
    ensures Merged(parse, keys, a + b) == Merged(parse, Merged(parse, keys, a), b)
  {
    if b == [] {
      assert a + b == a;
    } else {
      var n := |b| - 1;
      assert (a + b)[..|a + b| - 1] == a + b[..n];
      MergedConcat(parse, keys, a, b[..n]);
    }
  }

  /** Strings whose kids are all present add nothing. */
  lemma {:induction false} MergedOfKnown(parse: Parser, keys: Keys, strings: seq<string>)
    requires forall s :: s in strings && parse(s).Some? ==> parse(s).value.kid in keys
    ensures Merged(parse, keys, strings) == keys
  {
    if strings != [] {
      MergedOfKnown(parse, keys, strings[..|strings| - 1]);
    }
  }

  lemma {:induction false} MergedKnowsInput(parse: Parser, keys: Keys, strings: seq<string>)
    ensures forall s :: s in strings && parse(s).Some? ==> parse(s).value.kid in Merged(parse, keys, strings)
    ensures forall kid :: kid in keys ==> kid in Merged(parse, keys, strings) && Merged(parse, keys, strings)[kid] == keys[kid]
  {
    if strings != [] {
      var n := |strings| - 1;
      MergedKnowsInput(parse, keys, strings[..n]);
      assert strings == strings[..n] + [strings[n]];
    }
  }

  /** Merging the same strings again changes nothing. */
  lemma MergedIdempotent(parse: Parser, keys: Keys, strings: seq<string>)
    ensures Merged(parse, Merged(parse, keys, strings), strings) == Merged(parse, keys, strings)
  {
    MergedKnowsInput(parse, keys, strings);
    MergedOfKnown(parse, Merged(parse, keys, strings), strings);
  }

  // ---------------------------------------------------------------- the operations

  datatype MergeResult = MergeResult(
    added: nat, skipped: nat, skippedUnparseable: nat, skippedDuplicate: nat, collisions: seq<Kid>)

  /** How many of the strings do not parse. */
  function Unparseable(parse: Parser, strings: seq<string>): nat {
    if strings == [] then 0
    else Unparseable(parse, strings[..|strings| - 1]) + if parse(strings[|strings| - 1]).None? then 1 else 0
  }

  /** The kids met again under another name, in order. */
  function Collisions(parse: Parser, keys: Keys, strings: seq<string>): seq<Kid> {
    if strings == [] then []
    else
      var init, last := strings[..|strings| - 1], parse(strings[|strings| - 1]);
      var before := Merged(parse, keys, init);
      Collisions(parse, keys, init) +
      if last.Some? && last.value.kid in before && before[last.value.kid].name != last.value.name then [last.value.kid] else []
  }

  /** `MergeFrom`: the store grows by exactly `added`, and every input string is added, a duplicate
      or unparseable. */
  method MergeFrom(parse: Parser, keys: Keys, strings: seq<string>) returns (merged: Keys, result: MergeResult)
    ensures merged == Merged(parse, keys, strings)
    ensures |merged| == |keys| + result.added
    ensures result.added + result.skipped == |strings|
    ensures result.skipped == result.skippedUnparseable + result.skippedDuplicate
    ensures result.skippedUnparseable == Unparseable(parse, strings)
    ensures result.collisions == Collisions(parse, keys, strings)
  {
    merged := keys;
    var added, unparseable, duplicate, collisions: seq<Kid> := 0, 0, 0, [];
    var i := 0;
    while i < |strings|
      invariant 0 <= i <= |strings| && merged == Merged(parse, keys, strings[..i])
      invariant |merged| == |keys| + added && added + unparseable + duplicate == i
      invariant unparseable == Unparseable(parse, strings[..i])
      invariant collisions == Collisions(parse, keys, strings[..i])
    {
      assert strings[..i + 1][..i] == strings[..i];
      var parsed := parse(strings[i]);
      if parsed.None? {
        unparseable := unparseable + 1;
      } else {
        var tk := parsed.value;
        if tk.kid in merged {
          if merged[tk.kid].name != tk.name {
            collisions := collisions + [tk.kid];
          }
          duplicate := duplicate + 1;
        } else {
          merged := merged[tk.kid := tk];
          added := added + 1;
        }
      }
      i := i + 1;
    }
    assert strings[..i] == strings;
    result := MergeResult(added, unparseable + duplicate, unparseable, duplicate, collisions);
  }

  datatype NewResult = Store(keys: Keys) | BadKey(index: nat) | DuplicateKid(index: nat)

  /** Every string parses. */
  predicate AllParse(parse: Parser, strings: seq<string>) {
    forall i :: 0 <= i < |strings| ==> parse(strings[i]).Some?
  }

  predicate DistinctKids(parse: Parser, strings: seq<string>)
    requires AllParse(parse, strings)
  {
    forall i, j :: 0 <= i < j < |strings| ==> parse(strings[i]).value.kid != parse(strings[j]).value.kid
  }

  /** `NewKeyStore`: it succeeds exactly on parseable strings with distinct kids, and then holds
      what merging them into an empty store gives; otherwise it names the first offender. */
  method NewKeyStore(parse: Parser, strings: seq<string>) returns (r: NewResult)
    ensures r.Store? <==> AllParse(parse, strings) && DistinctKids(parse, strings)
    ensures r.Store? ==> r.keys == Merged(parse, map[], strings)
    ensures !r.Store? ==> r.index < |strings| && AllParse(parse, strings[..r.index]) && DistinctKids(parse, strings[..r.index])
    ensures r.BadKey? ==> parse(strings[r.index]).None?
    ensures r.DuplicateKid? ==> parse(strings[r.index]).Some? &&
                                exists i :: 0 <= i < r.index && parse(strings[i]).Some? &&
                                            parse(strings[i]).value.kid == parse(strings[r.index]).value.kid
  {
    var keys: Keys := map[];
    var i := 0;
    while i < |strings|
      invariant 0 <= i <= |strings| && AllParse(parse, strings[..i]) && DistinctKids(parse, strings[..i])
      invariant keys == Merged(parse, map[], strings[..i])
      invariant forall kid :: kid in keys <==> exists j :: 0 <= j < i && parse(strings[j]).value.kid == kid
    {
      assert strings[..i + 1][..i] == strings[..i];
      var parsed := parse(strings[i]);
      if parsed.None? {
        return BadKey(i);
      }
      if parsed.value.kid in keys {
        return DuplicateKid(i);
      }
      keys := keys[parsed.value.kid := parsed.value];
      assert keys == Merged(parse, map[], strings[..i + 1]);
      i := i + 1;
    }
    assert strings[..i] == strings;
    return Store(keys);
  }

  lemma {:induction false} MergedFromEmpty(parse: Parser, strings: seq<string>, kid: Kid)
    ensures kid in Merged(parse, map[], strings) <==>
            exists j :: 0 <= j < |strings| && parse(strings[j]).Some? && parse(strings[j]).value.kid == kid
  {
    if strings != [] {
      var n := |strings| - 1;
      MergedFromEmpty(parse, strings[..n], kid);
      assert forall j :: 0 <= j < n ==> strings[..n][j] == strings[j];
    }
  }

  /** The strict constructor accepts a list exactly when a lenient merge of it skips nothing. */
  lemma {:induction false} StrictIffNothingSkipped(parse: Parser, strings: seq<string>)
    ensures |Merged(parse, map[], strings)| <= |strings|
    ensures |Merged(parse, map[], strings)| == |strings| <==> AllParse(parse, strings) && DistinctKids(parse, strings)
  {
    if strings != [] {
      var n := |strings| - 1;
      var init, last := strings[..n], parse(strings[n]);
      StrictIffNothingSkipped(parse, init);
      assert forall j :: 0 <= j < n ==> init[j] == strings[j];
      if last.Some? {
        MergedFromEmpty(parse, init, last.value.kid);
      }
    }
  }
}
