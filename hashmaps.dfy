/**
  HashElements: the contents of a Go map literal, `k1: v1, k2: v2`, become
  the contents of a C++ `std::unordered_map` initialiser. Keys of a library
  type are hashed with `std::hash`; with `keyForBoth` the entry maps the
  hashed key to the key itself, as the key table of a map needs.
*/
module HashMaps {
  import opened Outcomes
  import opened GoStrings
  import opened Helpers

  const PairPanic: string := "This should be two elements, separated by a colon: "
  const HashOpen: string := "{std::hash<"

  /** One `key: value` pair as an initialiser entry; a pair without `:` panics. */
  function Entry(pair: string, keyType: string, keyForBoth: bool): (r: Result<string>)
    ensures r.Err? <==> ':' !in pair
  {
    var pairElements := SplitTwo(pair, ":");
    ContainsChar(pair, ':');
    if |pairElements| != 2 then
      Err(Explicit(PairPanic + pair))
    else if ShouldHash(keyType) then
      if keyForBoth then
        Ok(HashOpen + keyType + ">{}(" + pairElements[0] + "), " + pairElements[0] + "}")
      else
        Ok(HashOpen + keyType + ">{}(" + pairElements[0] + "), " + pairElements[1] + "}")
    else
      Ok("{" + pairElements[0] + ", " + pairElements[1] + "}")
  }

  /** The entries of the pairs, in order; the first pair without `:` stops the translation. */
  function Entries(pairs: seq<string>, keyType: string, keyForBoth: bool): (r: Result<seq<string>>)
    ensures r.Ok? ==> |r.value| == |pairs|
  {
    if pairs == [] then Ok([])
    else
      var es :- Entries(pairs[..|pairs| - 1], keyType, keyForBoth);
      var e :- Entry(pairs[|pairs| - 1], keyType, keyForBoth);
      Ok(es + [e])
  }

  /** The first failing pair decides the result, whatever follows it. */
  lemma {:induction false} EntriesFailEarly(pairs: seq<string>, k: int, keyType: string, keyForBoth: bool)
    requires 0 <= k <= |pairs| && Entries(pairs[..k], keyType, keyForBoth).Err?
    ensures Entries(pairs, keyType, keyForBoth) == Entries(pairs[..k], keyType, keyForBoth)
    decreases |pairs|
  {
    if k < |pairs| {
      var init := pairs[..|pairs| - 1];
      assert init[..k] == pairs[..k];
      EntriesFailEarly(init, k, keyType, keyForBoth);
    } else {
      assert pairs[..k] == pairs;
    }
  }

  /** What HashElements returns. */
  function Hashed(source: string, keyType: string, keyForBoth: bool): (r: Result<string>)
    ensures !Contains(source, ",") ==> r == Ok(source)
  {
    if !Contains(source, ",") then Ok(source)
    else
      var es :- Entries(Split(source, ","), keyType, keyForBoth);
      Ok("{" + Join(es, ",") + "}")
  }

  /** HashElements, with the loop of the source over the pairs. */
  method HashElements(source: string, keyType: string, keyForBoth: bool) returns (r: Result<string>)
    ensures r == Hashed(source, keyType, keyForBoth)
  {
    if !Contains(source, ",") {
      return Ok(source);
    }
    var pairs := Split(source, ",");
    var output := "{";
    var first := true;
    ghost var es: seq<string> := [];
    for i := 0 to |pairs|
      invariant Entries(pairs[..i], keyType, keyForBoth) == Ok(es)
      invariant first <==> es == []
      invariant output == "{" + Join(es, ",")
    {
      ghost var before := output;
      if !first {
        output := output + ",";
      } else {
        first := false;
      }
      var entry := Entry(pairs[i], keyType, keyForBoth);
      EntriesNext(pairs, i, keyType, keyForBoth, es, entry);
      if entry.Err? {
        EntriesFailEarly(pairs, i + 1, keyType, keyForBoth);
        return Err(entry.error);
      }
      JoinNext(es, entry.value, output[|before|..]);
      output := output + entry.value;
      es := es + [entry.value];
    }
    assert pairs[..|pairs|] == pairs;
    output := output + "}";
    return Ok(output);
  }

  /** One more pair: the entries so far, then the entry of pair `i`. */
  lemma EntriesNext(pairs: seq<string>, i: int, keyType: string, keyForBoth: bool, es: seq<string>, entry: Result<string>)
    requires 0 <= i < |pairs| && Entries(pairs[..i], keyType, keyForBoth) == Ok(es)
    requires entry == Entry(pairs[i], keyType, keyForBoth)
    ensures entry.Err? ==> Entries(pairs[..i + 1], keyType, keyForBoth) == Err(entry.error)
    ensures entry.Ok? ==> Entries(pairs[..i + 1], keyType, keyForBoth) == Ok(es + [entry.value])
  {
    assert pairs[..i + 1][..i] == pairs[..i];
    assert pairs[..i + 1][i] == pairs[i];
  }

  /** The separator goes before every entry but the first. */
  lemma JoinNext(es: seq<string>, e: string, separator: string)
    requires separator == (if es == [] then "" else ",")
    ensures "{" + Join(es, ",") + separator + e == "{" + Join(es + [e], ",")
  {
    if es != [] {
      JoinSnoc(es, e, ",");
    } else {
      assert es + [e] == [e];
    }
  }

  /** The translation fails exactly when some pair lacks a `:`. */
  lemma {:induction false} EntriesFail(pairs: seq<string>, keyType: string, keyForBoth: bool)
    ensures Entries(pairs, keyType, keyForBoth).Err? <==> exists i :: 0 <= i < |pairs| && ':' !in pairs[i]
    decreases |pairs|
  {
    if pairs != [] {
      var init := pairs[..|pairs| - 1];
      EntriesFail(init, keyType, keyForBoth);
      if exists i :: 0 <= i < |init| && ':' !in init[i] {
        var i :| 0 <= i < |init| && ':' !in init[i];
        assert ':' !in pairs[i];
      }
      if exists i :: 0 <= i < |pairs| && ':' !in pairs[i] {
        var i :| 0 <= i < |pairs| && ':' !in pairs[i];
        if i < |init| {
          assert ':' !in init[i];
        }
      }
    }
  }

  /** Entry `i` of a successful translation is the entry of pair `i`. */
  lemma {:induction false} EntriesEach(pairs: seq<string>, keyType: string, keyForBoth: bool)
    requires Entries(pairs, keyType, keyForBoth).Ok?
    ensures forall i :: 0 <= i < |pairs| ==> Entry(pairs[i], keyType, keyForBoth) == Ok(Entries(pairs, keyType, keyForBoth).value[i])
    decreases |pairs|
  {
    if pairs != [] {
      var init := pairs[..|pairs| - 1];
      EntriesEach(init, keyType, keyForBoth);
      forall i | 0 <= i < |init| ensures pairs[i] == init[i] {
      }
    }
  }

  /** HashElements fails exactly when it splits at commas and some piece lacks a `:`. */
  lemma HashedFails(source: string, keyType: string, keyForBoth: bool)
    ensures Hashed(source, keyType, keyForBoth).Err? <==>
            Contains(source, ",") && exists p :: p in Split(source, ",") && ':' !in p
  {
    if Contains(source, ",") {
      var pairs := Split(source, ",");
      EntriesFail(pairs, keyType, keyForBoth);
      if exists p :: p in pairs && ':' !in p {
        var p :| p in pairs && ':' !in p;
        var i :| 0 <= i < |pairs| && pairs[i] == p;
        assert ':' !in pairs[i];
      }
    }
  }

  lemma EntryLayout(key: string, value: string)
    requires ':' !in key
    ensures SplitTwo(key + ":" + value, ":") == [key, value]
  {
    var pair := key + ":" + value;
    assert pair == key + [':'] + value;
    IndexAfter(key, ':', value);
    assert pair[..|key|] == key;
    assert pair[|key| + 1..] == value;
  }

  /**
    A pair splits at its first colon. The entry is `{key, value}`, or, for a
    type ShouldHash accepts, the hashed key paired with the key itself (for
    keyForBoth) or with the value.
  */
  lemma EntryShape(key: string, value: string, keyType: string, keyForBoth: bool)
    requires ':' !in key
    ensures Entry(key + ":" + value, keyType, keyForBoth) ==
            if ShouldHash(keyType) then
              Ok(HashOpen + keyType + ">{}(" + key + "), " + (if keyForBoth then key else value) + "}")
            else
              Ok("{" + key + ", " + value + "}")
  {
    EntryLayout(key, value);
    var pair := key + ":" + value;
    assert ':' in pair by {
      assert pair[|key|] == ':';
    }
  }

  /** Pairs without commas, each with a colon, joined by commas, translate pair by pair. */
  lemma HashedPairs(pairs: seq<string>, keyType: string, keyForBoth: bool)
    requires |pairs| >= 2
    requires forall i :: 0 <= i < |pairs| ==> ',' !in pairs[i] && ':' in pairs[i]
    ensures Entries(pairs, keyType, keyForBoth).Ok?
    ensures Hashed(Join(pairs, ","), keyType, keyForBoth) ==
            Ok("{" + Join(Entries(pairs, keyType, keyForBoth).value, ",") + "}")
  {
    var source := Join(pairs, ",");
    SplitJoin(pairs, ',');
    JoinCons(pairs, ",");
    assert source[|pairs[0]|] == ',';
    ContainsChar(source, ',');
    EntriesFail(pairs, keyType, keyForBoth);
  }
}
