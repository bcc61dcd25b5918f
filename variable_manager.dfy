/**
 * The calculator's named variables: a JavaScript `Map` from names to value strings. Names given
 * to `setVariable` are trimmed and must be identifiers; every lookup trims the name it is given;
 * `loadVariables` refills the map as it is, without trimming or checking.
 */
module Variables {
  import opened Wrappers
  import opened Text
  import opened OrderedMap

  /** `{ name, value }`, what `getAllVariables` lists and `loadVariables` reads. */
  datatype Variable = Variable(name: string, value: string)

  /** `/^[a-zA-Z_][a-zA-Z0-9_]*$/`: a letter or `_`, then letters, digits and `_`. */
  predicate IsValidVariableName(name: string)
  {
    && name != []
    && (IsAsciiLetter(name[0]) || name[0] == '_')
    && forall i :: 0 <= i < |name| ==> IsWordChar(name[i])
  }

  /** A valid name is never a numeral, holds no white space, and so is its own trimmed form. */
  lemma {:induction false} ValidNameShape(name: string)
    requires IsValidVariableName(name)
    ensures !IsDigit(name[0])
    ensures forall i :: 0 <= i < |name| ==> !IsJsWhitespace(name[i])
    ensures Trim(name) == name
  {
    assert IsWordChar(name[|name| - 1]);
  }

  /** The message `setVariable` throws: it quotes the name as given, before trimming. */
  function InvalidNameMessage(name: string): (m: string)
    ensures StartsWith(m, "Invalid variable name: ") && EndsWith(m, name)
  {
    "Invalid variable name: " + name
  }

  /** The map `loadVariables` leaves: every pair set in order, from an empty map. */
  function Loaded(vars: seq<Variable>): (m: seq<(string, string)>)
    ensures KeysUnique(m)
  {
    if vars == [] then []
    else
      var last := vars[|vars| - 1];
      Put(Loaded(vars[..|vars| - 1]), last.name, last.value)
  }

  /** The value of the last pair in `vars` named `k`: the one a sequence of `set` calls keeps. */
  function LastValue(vars: seq<Variable>, k: string): (r: Option<string>)
    ensures r.None? <==> forall i :: 0 <= i < |vars| ==> vars[i].name != k
    ensures r.Some? ==> exists i :: 0 <= i < |vars| && vars[i] == Variable(k, r.value)
  {
    if vars == [] then None
    else if vars[|vars| - 1].name == k then Some(vars[|vars| - 1].value)
    else
      var r := LastValue(vars[..|vars| - 1], k);
      assert forall i :: 0 <= i < |vars| - 1 ==> vars[..|vars| - 1][i] == vars[i];
      r
  }

  /** After `loadVariables`, each name reads as the value of its last occurrence: later duplicates win. */
  lemma {:induction false} LoadedGet(vars: seq<Variable>, k: string)
    ensures Get(Loaded(vars), k) == LastValue(vars, k)
  {
    if vars != [] {
      LoadedGet(vars[..|vars| - 1], k);
    }
  }

  /** Keeps a map with one entry per name, as a JavaScript `Map` does. */
  class VariableManager {
    var variables: seq<(string, string)>

    ghost predicate Valid()
      reads this
    {
      KeysUnique(variables)
    }

    constructor ()
      ensures Valid() && variables == []
    {
      variables := [];
    }

    /**
     * `setVariable`: a valid trimmed name is set (in place if present, appended if new) and `true`
     * returned; otherwise the call throws and the map is unchanged.
     */
    method SetVariable(name: string, value: string) returns (c: Completion<bool>)
      requires Valid()
      modifies this
      ensures Valid()
      ensures IsValidVariableName(Trim(name)) ==> c == Normal(true) && variables == Put(old(variables), Trim(name), value)
      ensures !IsValidVariableName(Trim(name)) ==>
        c == Thrown(ErrorObject(InvalidNameMessage(name))) && variables == old(variables)
    {
      var trimmedName := Trim(name);
      if !IsValidVariableName(trimmedName) {
        return Thrown(ErrorObject(InvalidNameMessage(name)));
      }
      variables := Put(variables, trimmedName, value);
      c := Normal(true);
    }

    /** `getVariable`: the value under the trimmed name; a missing name and a stored `''` both give null. */
    method GetVariable(name: string) returns (r: Option<string>)
      requires Valid()
      ensures r.Some? <==> Has(variables, Trim(name)) && Get(variables, Trim(name)).value != ""
      ensures r.Some? ==> exists i :: 0 <= i < |variables| && variables[i] == (Trim(name), r.value)
    {
      r := OrNull(Get(variables, Trim(name)));
      if r.Some? {
        var i := IndexOf(variables, Trim(name));
        assert variables[i].0 == Trim(name);
      }
    }

    /** `getAllVariables`: the entries in insertion order. */
    method GetAllVariables() returns (r: seq<Variable>)
      ensures |r| == |variables|
      ensures forall i :: 0 <= i < |r| ==> r[i] == Variable(variables[i].0, variables[i].1)
    {
      r := [];
      for i := 0 to |variables|
        invariant |r| == i
        invariant forall j :: 0 <= j < i ==> r[j] == Variable(variables[j].0, variables[j].1)
      {
        r := r + [Variable(variables[i].0, variables[i].1)];
      }
    }

    /** `hasVariable`: the trimmed name has an entry. */
    method HasVariable(name: string) returns (b: bool)
      ensures b <==> exists i :: 0 <= i < |variables| && variables[i].0 == Trim(name)
    {
      b := Has(variables, Trim(name));
      if b {
        var i := IndexOf(variables, Trim(name));
        assert variables[i].0 == Trim(name);
      }
    }

    /** `deleteVariable`: removes the entry of the trimmed name and says whether there was one. */
    method DeleteVariable(name: string) returns (removed: bool)
      requires Valid()
      modifies this
      ensures Valid()
      ensures removed == Has(old(variables), Trim(name))
      ensures variables == Remove(old(variables), Trim(name))
      ensures |variables| == if removed then |old(variables)| - 1 else |old(variables)|
      ensures !Has(variables, Trim(name))
    {
      removed := Has(variables, Trim(name));
      RemoveCount(variables, Trim(name));
      variables := Remove(variables, Trim(name));
    }

    /** `clearAll`. */
    method ClearAll()
      modifies this
      ensures Valid() && variables == []
    {
      variables := [];
    }

    /** `loadVariables`: clears the map, then sets every pair in order, names as given. */
    method LoadVariables(vars: seq<Variable>)
      modifies this
      ensures Valid() && variables == Loaded(vars)
      ensures forall k :: Get(variables, k) == LastValue(vars, k)
    {
      variables := [];
      for i := 0 to |vars|
        invariant variables == Loaded(vars[..i])
      {
        assert vars[..i + 1][..i] == vars[..i];
        variables := Put(variables, vars[i].name, vars[i].value);
      }
      assert vars[..|vars|] == vars;
      forall k ensures Get(variables, k) == LastValue(vars, k) {
        LoadedGet(vars, k);
      }
    }

    /** `getCount`: the number of entries. */
    method GetCount() returns (n: nat)
      ensures n == |variables|
    {
      n := |variables|;
    }
  }

  /** A successful `setVariable(n, v)` makes `n` present; it reads back as `v` unless `v` is `''`. */
  lemma {:induction false} SetThenGet(m: seq<(string, string)>, name: string, value: string)
    requires IsValidVariableName(Trim(name))
    ensures Has(Put(m, Trim(name), value), Trim(name))
    ensures OrNull(Get(Put(m, Trim(name), value), Trim(name))) == if value == "" then None else Some(value)
  {
  }

  /** Lookups trim the name, so ` x ` and `x` address the same entry. */
  lemma {:induction false} PaddedNameExample(m: seq<(string, string)>)
    ensures Get(m, Trim(" x ")) == Get(m, Trim("x")) == Get(m, "x")
  {
    PaddedNameTrimmed();
    assert IsTrimmed("x");
  }

  /** ` x ` trims to `x`. */
  lemma PaddedNameTrimmed()
    ensures Trim(" x ") == "x"
  {
    assert TrimStart(" x ") == "x " by {
      assert IsJsWhitespace(' ') && !IsJsWhitespace('x');
      assert " x "[1..] == "x ";
    }
    assert TrimEnd("x ") == "x" by {
      assert "x "[..1] == "x";
    }
  }

  /** Re-setting a present name keeps the number of entries and the position of the entry. */
  lemma {:induction false} ResetKeepsPlace(m: seq<(string, string)>, k: string, v: string)
    requires Has(m, k)
    ensures |Put(m, k, v)| == |m|
    ensures IndexOf(Put(m, k, v), k) == IndexOf(m, k)
  {
    var r := Put(m, k, v);
    assert |Keys(r)| == |Keys(m)|;
    IndexOfKeys(r, m, k);
  }

  /** The position of a key depends only on the keys. */
  lemma {:induction false} IndexOfKeys(a: seq<(string, string)>, b: seq<(string, string)>, k: string)
    requires Keys(a) == Keys(b)
    ensures IndexOf(a, k) == IndexOf(b, k)
  {
    assert |a| == |b|;
    if a != [] {
      assert a[0].0 == Keys(a)[0] == Keys(b)[0] == b[0].0;
      assert Keys(a[1..]) == Keys(a)[1..];
      assert Keys(b[1..]) == Keys(b)[1..];
      IndexOfKeys(a[1..], b[1..], k);
    }
  }
}
