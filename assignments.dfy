/**
  Properties of the assignment branch of go2cpp: a short variable
  declaration becomes an `auto` declaration, several names on the left
  become a structured binding, a plain assignment is kept, and a map literal
  registers its name so that a later range loop over it iterates the map.
*/
module Assignments {
  import opened Outcomes
  import opened GoStrings
  import opened Helpers
  import opened Loops
  import opened HashMaps
  import opened Pipeline

  /** One side of an assignment: non-empty, no `=`, no white space at either end. */
  predicate IsSide(w: string) {
    w != [] && !IsSpace(w[0]) && !IsSpace(w[|w| - 1]) && '=' !in w
  }

  /** `left := right` splits at its `=` into `left :` and ` right`. */
  lemma WalrusSplit(left: string, right: string)
    requires IsSide(left) && IsSide(right)
    ensures var t := left + " := " + right;
            Contains(t, "=") && Split(t, "=") == [left + " :", " " + right]
  {
    var t := left + " := " + right;
    assert t == (left + " :") + ['='] + (" " + right);
    assert '=' !in left + " :";
    SplitOn(left + " :", '=', " " + right);
    assert '=' !in " " + right;
    SplitNone(" " + right, '=');
    assert t[|left| + 2] == '=';
    ContainsChar(t, '=');
  }

  /** `left = right` splits at its `=` into `left ` and ` right`. */
  lemma EqualsSplit(left: string, right: string)
    requires IsSide(left) && IsSide(right)
    ensures var t := left + " = " + right;
            Contains(t, "=") && Split(t, "=") == [left + " ", " " + right]
  {
    var t := left + " = " + right;
    assert t == (left + " ") + ['='] + (" " + right);
    assert '=' !in left + " ";
    SplitOn(left + " ", '=', " " + right);
    assert '=' !in " " + right;
    SplitNone(" " + right, '=');
    assert t[|left| + 1] == '=';
    ContainsChar(t, '=');
  }

  /** The trimmings the assignment branch applies to the two sides. */
  lemma SidesTrimmed(left: string, right: string)
    requires IsSide(left) && IsSide(right)
    ensures TrimSpace(left + " :") == left + " :"
    ensures TrimSpace(left + " ") == left
    ensures TrimSpace(" " + right) == right
    ensures TrimSpace(right) == right
  {
    TrimSpaceClean(left + " :");
    TrimSpacePadded("", left, " ");
    assert "" + left + " " == left + " ";
    TrimSpacePadded(" ", right, "");
    assert " " + right + "" == " " + right;
    TrimSpaceClean(right);
  }

  /** The colon of `:=` is cut from the left side. */
  lemma ColonCut(left: string)
    ensures HasSuffix(left + " :", ":")
    ensures (left + " :")[..|left + " :"| - 1] == left + " "
  {
    assert (left + " :")[|left + " :"| - 1..] == ":";
  }

  /** Whether the left side, with its trailing space, lists several names. */
  lemma CommaInLeft(left: string)
    ensures Contains(left + " ", ",") <==> ',' in left
  {
    ContainsChar(left + " ", ',');
  }

  /** The assignment branch for a trimmed line `left := right`, once its pieces are known. */
  lemma DeclarationOf(trimmed: string, maps: seq<string>, left: string, right: string)
    requires Contains(trimmed, "=")
    requires Split(trimmed, "=") == [left + " :", " " + right]
    requires TrimSpace(left + " :") == left + " :" && TrimSpace(" " + right) == right
    requires HasSuffix(left + " :", ":") && (left + " :")[..|left + " :"| - 1] == left + " "
    ensures Assignment(trimmed, maps) ==
            if Contains(left + " ", ",") then Ok(Assigned("auto [" + (left + " ") + "] = " + right, maps))
            else if HasPrefix(right, "[]") then
              var text :- ArrayDeclaration(left + " ", right);
              Ok(Assigned(text, maps))
            else if HasPrefix(right, "map[") then MapDeclaration(TrimSpace(left + " "), right, maps)
            else Ok(Assigned("auto " + TrimSpace(left + " ") + " = " + TrimSpace(right), maps))
  {
  }

  /** A short variable declaration `name := value` becomes `auto name = value`. */
  lemma ShortDeclaration(name: string, value: string, maps: seq<string>)
    requires IsSide(name) && ',' !in name && IsSide(value)
    requires !HasPrefix(value, "[]") && !HasPrefix(value, "map[")
    ensures Contains(name + " := " + value, "=") &&
            Assignment(name + " := " + value, maps) == Ok(Assigned("auto " + name + " = " + value, maps))
  {
    WalrusSplit(name, value);
    SidesTrimmed(name, value);
    ColonCut(name);
    CommaInLeft(name);
    DeclarationOf(name + " := " + value, maps, name, value);
  }

  /**
    Several names on the left, `a, b := value`, become a structured binding.
    The name list keeps the space that stood before `:=`.
  */
  lemma Destructuring(names: string, value: string, maps: seq<string>)
    requires IsSide(names) && ',' in names && IsSide(value)
    ensures Contains(names + " := " + value, "=") &&
            Assignment(names + " := " + value, maps) == Ok(Assigned("auto [" + names + " ] = " + value, maps))
  {
    WalrusSplit(names, value);
    SidesTrimmed(names, value);
    ColonCut(names);
    CommaInLeft(names);
    DeclarationOf(names + " := " + value, maps, names, value);
    BindingLayout(names, value);
  }

  lemma BindingLayout(names: string, value: string)
    ensures "auto [" + (names + " ") + "] = " + value == "auto [" + names + " ] = " + value
  {
  }

  /** A plain assignment `name = value` to a single name is kept as it is. */
  lemma PlainAssignment(name: string, value: string, maps: seq<string>)
    requires IsSide(name) && ',' !in name && name[|name| - 1] != ':' && IsSide(value)
    ensures Contains(name + " = " + value, "=") &&
            Assignment(name + " = " + value, maps) == Ok(Assigned(name + " = " + value, maps))
  {
    EqualsSplit(name, value);
    SidesTrimmed(name, value);
    ContainsChar(name, ',');
    assert !HasSuffix(name, ":") by {
      assert name[|name| - 1..] != ":" by {
        assert name[|name| - 1..][0] == name[|name| - 1];
      }
    }
  }

  /** A map literal `name := map[K]V{…}` that translates registers `name` as a map. */
  lemma MapRegistered(name: string, right: string, maps: seq<string>)
    requires IsSide(name) && ',' !in name && IsSide(right) && HasPrefix(right, "map[")
    ensures Contains(name + " := " + right, "=") &&
            (Assignment(name + " := " + right, maps).Ok? ==>
               Assignment(name + " := " + right, maps).value.encounteredHashMaps == maps + [name])
  {
    WalrusSplit(name, right);
    SidesTrimmed(name, right);
    ColonCut(name);
    CommaInLeft(name);
    assert !HasPrefix(right, "[]") by {
      PrefixAt(right, "map[", 0);
      PrefixAt(right, "[]", 0);
    }
    DeclarationOf(name + " := " + right, maps, name, right);
  }

  /**
    After a map literal `m := map[K]V{…}`, the loop `for k, v := range m`
    destructures the entries of `m` instead of counting an index.
  */
  lemma MapThenRange(m: string, right: string, k: string, v: string, maps: seq<string>)
    requires IsName(m) && IsSide(right) && HasPrefix(right, "map[")
    requires IsName(k) && IsName(v) && k != "_"
    ensures Contains(m + " := " + right, "=")
    ensures Assignment(m + " := " + right, maps).Ok? ==>
            var registry := Assignment(m + " := " + right, maps).value.encounteredHashMaps;
            var elem := " " + v + " ";
            var key := k + HashMapSuffix + KeysSuffix;
            ForHeader(k + ", " + v + " := range " + m, registry) ==
            Ok(For("auto " + key + " : " + m + KeysSuffix + ") {" + "\n" +
                   "auto " + k + " = " + key + ".second;\nauto " + elem + " = " + m + ".at(" + key + ".first)"))
  {
    NameFree(m);
    MapRegistered(m, right, maps);
    if Assignment(m + " := " + right, maps).Ok? {
      var registry := Assignment(m + " := " + right, maps).value.encounteredHashMaps;
      assert m in registry;
      PairOverMapEntries(k, v, m, registry);
    }
  }

  /** The parts of a map literal `map[k]v{e}` that may not hold the markers after them. */
  predicate MapParts(k: string, v: string, e: string) {
    ']' !in k && '{' !in k && '}' !in k && '{' !in v && '}' !in v && '}' !in e
  }

  /** The key type, the value type and the elements that between finds in `map[k]v{e}`. */
  lemma MapLiteralParts(k: string, v: string, e: string)
    requires MapParts(k, v, e)
    ensures var right := "map[" + k + "]" + v + "{" + e + "}";
            Between(right, "map[", "]") == Ok(k) && Between(right, "]", "{") == Ok(v) && Between(right, "{", "}") == Ok(e)
  {
    MapKeyFound(k, v + "{" + e + "}");
    assert "map[" + k + "]" + v + "{" + e + "}" == "map[" + k + "]" + (v + "{" + e + "}");
    MapValueFound(k, v, e);
    MapElementsFound(k, v, e);
  }

  /** The value type of `map[k]v{e}` is `v`. */
  lemma MapValueFound(k: string, v: string, e: string)
    requires ']' !in k && '{' !in k && '{' !in v
    ensures Between("map[" + k + "]" + v + "{" + e + "}", "]", "{") == Ok(v)
  {
    assert "map[" + k + "]" + v + "{" + e + "}" == ("map[" + k) + [']'] + v + ['{'] + (e + "}");
    BetweenDelimited("map[" + k, ']', v, '{', e + "}");
  }

  /** The elements of `map[k]v{e}` are `e`. */
  lemma MapElementsFound(k: string, v: string, e: string)
    requires '{' !in k && '}' !in k && '{' !in v && '}' !in v && '}' !in e
    ensures Between("map[" + k + "]" + v + "{" + e + "}", "{", "}") == Ok(e)
  {
    assert "map[" + k + "]" + v + "{" + e + "}" == ("map[" + k + "]" + v) + ['{'] + e + ['}'] + "";
    BetweenDelimited("map[" + k + "]" + v, '{', e, '}', "");
  }

  /** The key type of `map[k]rest` is `k`. */
  lemma MapKeyFound(k: string, rest: string)
    requires ']' !in k
    ensures Between("map[" + k + "]" + rest, "map[", "]") == Ok(k)
  {
    var right := "map[" + k + "]" + rest;
    assert right[..4] == "map[";
    IndexPrefix(right, "map[");
    assert right[4 + |k|] == ']';
    forall j | 0 <= j < 4 + |k| ensures right[j] != ']' {
      assert right[j] == ("map[" + k)[j];
    }
    IndexChar(right, ']', 4 + |k|);
    assert right[4..4 + |k|] == k;
    BetweenIndexed(right, "map[", "]", 0, 4 + |k|);
  }

  /**
    A map literal `name := map[k]v{e}` declares, for a key type that is a
    library type once `string` is renamed, two maps keyed by the key's hash:
    `name` from hash to value and `name_k__` from hash to key; for any other
    key type it declares one `std::unordered_map<K, V>`. It panics exactly
    when the pairs do, and registers `name` either way.
  */
  lemma MapLiteral(name: string, k: string, v: string, e: string, maps: seq<string>)
    requires MapParts(k, v, e)
    ensures var r := MapDeclaration(name, "map[" + k + "]" + v + "{" + e + "}", maps);
            r.Ok? <==> Hashed(e, TypeReplace(k), false).Ok?
    ensures var r := MapDeclaration(name, "map[" + k + "]" + v + "{" + e + "}", maps);
            var key := TypeReplace(k);
            var values := Hashed(e, key, false);
            var keys := Hashed(e, key, true);
            ShouldHash(key) && values.Ok? ==>
              keys.Ok? &&
              r == Ok(Assigned("std::unordered_map<std::size_t, " + TypeReplace(v) + "> " + name + values.value + ";\n" +
                               "std::unordered_map<std::size_t, " + key + "> " + name + KeysSuffix + keys.value,
                               maps + [name]))
    ensures var r := MapDeclaration(name, "map[" + k + "]" + v + "{" + e + "}", maps);
            var key := TypeReplace(k);
            var values := Hashed(e, key, false);
            !ShouldHash(key) && values.Ok? ==>
              r == Ok(Assigned("std::unordered_map<" + key + ", " + TypeReplace(v) + "> " + name + values.value, maps + [name]))
  {
    MapLiteralParts(k, v, e);
    HashedFails(e, TypeReplace(k), false);
    HashedFails(e, TypeReplace(k), true);
  }
}
