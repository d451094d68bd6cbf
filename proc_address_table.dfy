/**
 * The address resolver that the GL emitter writes into every generated
 * proc-address table class (getAddressFor). The table's address fields, found by
 * reflection in the generated code, are modelled as a map from field name to the
 * address it holds.
 */
module ProcAddressTable {
  import opened Wrappers
  import opened GLCollaborators

  /** The failure of a lookup, with the normalized and the user's function name. */
  datatype NotFound = NotFound(functionNameBase: string, functionNameUsr: string)

  /** The normalized name a user's function name is looked up by: ARB then vendor suffix removed. */
  function FunctionNameBase(rules: NameRules, functionNameUsr: string): string
  {
    rules.normalizeVEN(rules.normalizeARB(functionNameUsr, true), true)
  }

  /** The i-th candidate field name of a normalized function name. */
  function FieldName(rules: NameRules, prefix: string, base: string, i: nat): string
  {
    rules.funcNamePermutation(prefix + base, i)
  }

  /** The first permutation index from `i` on, below `n`, whose field exists. */
  function FirstPresent(rules: NameRules, prefix: string, base: string, fields: map<string, int>, i: nat, n: nat): (r: Option<nat>)
    ensures r.Some? ==> i <= r.value < n && FieldName(rules, prefix, base, r.value) in fields
    decreases n - i
  {
    if i >= n then None
    else if FieldName(rules, prefix, base, i) in fields then Some(i)
    else FirstPresent(rules, prefix, base, fields, i + 1, n)
  }

  /** The resolver: the address in the first existing candidate field, or NotFound. */
  function Resolve(rules: NameRules, prefix: string, fields: map<string, int>, functionNameUsr: string): Result<int, NotFound>
  {
    var base := FunctionNameBase(rules, functionNameUsr);
    var n := rules.funcNamePermutationNumber(base);
    match FirstPresent(rules, prefix, base, fields, 0, n)
    case Some(k) => Ok(fields[FieldName(rules, prefix, base, k)])
    case None => Err(NotFound(base, functionNameUsr))
  }

  lemma {:induction false} FirstPresentMeaning(rules: NameRules, prefix: string, base: string, fields: map<string, int>, i: nat, n: nat)
    ensures var r := FirstPresent(rules, prefix, base, fields, i, n);
      && (r.None? <==> forall k :: i <= k < n ==> FieldName(rules, prefix, base, k) !in fields)
      && (r.Some? ==> i <= r.value < n && FieldName(rules, prefix, base, r.value) in fields &&
                      forall k :: i <= k < r.value ==> FieldName(rules, prefix, base, k) !in fields)
    decreases n - i
  {
    if i < n && FieldName(rules, prefix, base, i) !in fields {
      FirstPresentMeaning(rules, prefix, base, fields, i + 1, n);
    }
  }

  /**
   * The resolver finds an address exactly when some permutation below the
   * permutation number names an existing field; the address is that of the first
   * such permutation; a failure carries the normalized and the user's name.
   */
  lemma ResolveMeaning(rules: NameRules, prefix: string, fields: map<string, int>, functionNameUsr: string)
    ensures var base := FunctionNameBase(rules, functionNameUsr);
      var n := rules.funcNamePermutationNumber(base);
      var r := Resolve(rules, prefix, fields, functionNameUsr);
      && (r.Ok? <==> exists k :: 0 <= k < n && FieldName(rules, prefix, base, k) in fields)
      && (r.Ok? ==> exists k :: 0 <= k < n && FieldName(rules, prefix, base, k) in fields &&
                      r.value == fields[FieldName(rules, prefix, base, k)] &&
                      forall j :: 0 <= j < k ==> FieldName(rules, prefix, base, j) !in fields)
      && (r.Err? ==> r.error == NotFound(base, functionNameUsr))
  {
    var base := FunctionNameBase(rules, functionNameUsr);
    FirstPresentMeaning(rules, prefix, base, fields, 0, rules.funcNamePermutationNumber(base));
  }

  /** A generated proc-address table: its address fields and the field-name prefix. */
  class ProcAddressTable {
    const fields: map<string, int>
    const prefix: string
    const rules: NameRules

    constructor (fields: map<string, int>, prefix: string, rules: NameRules)
      ensures this.fields == fields && this.prefix == prefix && this.rules == rules
    {
      this.fields := fields;
      this.prefix := prefix;
      this.rules := rules;
    }

    /** getAddressFor: tries the permutations in order and stops at the first existing field. */
    method GetAddressFor(functionNameUsr: string) returns (r: Result<int, NotFound>)
      ensures r == Resolve(rules, prefix, fields, functionNameUsr)
    {
      var functionNameBase := rules.normalizeVEN(rules.normalizeARB(functionNameUsr, true), true);
      var addressFieldNameBase := prefix + functionNameBase;
      var addressField: Option<string> := None;
      var funcNamePermNum := rules.funcNamePermutationNumber(functionNameBase);
      var i := 0;
      while addressField.None? && i < funcNamePermNum
        invariant 0 <= i <= funcNamePermNum
        invariant addressField.None? ==>
          FirstPresent(rules, prefix, functionNameBase, fields, i, funcNamePermNum) ==
          FirstPresent(rules, prefix, functionNameBase, fields, 0, funcNamePermNum)
        invariant addressField.Some? ==> i >= 1 && addressField.value in fields
        invariant addressField.Some? ==>
          FirstPresent(rules, prefix, functionNameBase, fields, 0, funcNamePermNum) == Some(i - 1) &&
          addressField.value == FieldName(rules, prefix, functionNameBase, i - 1)
        decreases funcNamePermNum - i
      {
        var addressFieldName := rules.funcNamePermutation(addressFieldNameBase, i);
        if addressFieldName in fields {
          addressField := Some(addressFieldName);
        }
        i := i + 1;
      }
      if addressField.None? {
        return Err(NotFound(functionNameBase, functionNameUsr));
      }
      r := Ok(fields[addressField.value]);
    }
  }
}
