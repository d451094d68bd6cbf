/**
 * GLEmitter.ExtensionUnifier: removes an extension's suffixed constants and
 * functions from the emitted symbol lists when every one of them has a core name
 * known to the header information. All or nothing per extension; the surviving
 * symbols keep their order.
 */
module ExtensionUnifier {
  import opened Wrappers
  import opened SeqUtil
  import opened GLCollaborators
  import opened LinkedMaps

  /** `!decl.startsWith("GL_")`: constant names carry the GL_ prefix, function names do not. */
  predicate IsFunctionName(decl: string)
  {
    !(|decl| >= 3 && decl[..3] == "GL_")
  }

  function ConstantName(c: ConstantDefinition): string { c.name }

  function FunctionName(f: FunctionSymbol): string { f.name }

  /** The constant map and the function map the unifier works on. */
  datatype SymbolMaps = SymbolMaps(constants: LinkedMap<ConstantDefinition>, functions: LinkedMap<FunctionSymbol>)
  {
    ghost predicate Valid()
    {
      constants.Valid() && functions.Valid()
    }

    /** The declaration is scheduled for emission, in the map for its kind. */
    predicate Emits(decl: string)
    {
      if IsFunctionName(decl) then decl in functions.entries else decl in constants.entries
    }
  }

  /** `glInfo.getExtension(normalize(decl, isFunc)) != null` */
  predicate CoreNameKnown(info: GLInfo, rules: NameRules, decl: string)
  {
    rules.normalize(decl, IsFunctionName(decl)) in info.extensionOf
  }

  /** A declaration passes all three checks of the unifier. */
  predicate Unifiable(info: GLInfo, rules: NameRules, decl: string, maps: SymbolMaps)
  {
    && rules.isExtension(decl, IsFunctionName(decl))
    && maps.Emits(decl)
    && CoreNameKnown(info, rules, decl)
  }

  /**
   * The outcome of scanning an extension: unified; not unified because of the
   * named declaration (the "cause" of the diagnostic); or not treated as an
   * extension at all (a declaration is not an extension name or not emitted).
   */
  datatype Verdict = Unified | NotUnified(cause: string) | NotAnExtension

  /** The scan of one extension's declarations, stopping at the first that fails a check. */
  function Judge(info: GLInfo, rules: NameRules, decls: seq<string>, maps: SymbolMaps): Verdict
  {
    if decls == [] then Unified
    else
      var d := decls[0];
      if !rules.isExtension(d, IsFunctionName(d)) || !maps.Emits(d) then NotAnExtension
      else if !CoreNameKnown(info, rules, d) then NotUnified(d)
      else Judge(info, rules, decls[1..], maps)
  }

  /**
   * An extension is unified exactly when every declaration passes the three checks;
   * the cause named when it is not is a declaration that is an emitted extension
   * symbol whose core name is unknown.
   */
  lemma {:induction false} JudgeMeaning(info: GLInfo, rules: NameRules, decls: seq<string>, maps: SymbolMaps)
    ensures Judge(info, rules, decls, maps) == Unified <==>
      forall i :: 0 <= i < |decls| ==> Unifiable(info, rules, decls[i], maps)
    ensures Judge(info, rules, decls, maps).NotUnified? ==>
      var c := Judge(info, rules, decls, maps).cause;
      c in decls && rules.isExtension(c, IsFunctionName(c)) && maps.Emits(c) && !CoreNameKnown(info, rules, c)
  {
    if decls != [] {
      JudgeMeaning(info, rules, decls[1..], maps);
      if Judge(info, rules, decls, maps) == Unified {
        forall i | 0 <= i < |decls| ensures Unifiable(info, rules, decls[i], maps) {
          if i > 0 { assert decls[i] == decls[1..][i - 1]; }
        }
      }
    }
  }

  /** The removal loop: each declaration leaves the map for its kind, in order. */
  function RemoveDecls(decls: seq<string>, maps: SymbolMaps): (r: SymbolMaps)
    requires maps.Valid()
    ensures r.Valid()
  {
    if decls == [] then maps
    else
      var m := RemoveDecls(decls[..|decls| - 1], maps);
      var d := decls[|decls| - 1];
      if IsFunctionName(d) then m.(functions := Remove(m.functions, d))
      else m.(constants := Remove(m.constants, d))
  }

  /** What happens to the two maps for one extension. */
  function ApplyExtension(info: GLInfo, rules: NameRules, decls: seq<string>, maps: SymbolMaps): (r: SymbolMaps)
    requires maps.Valid()
    ensures r.Valid()
  {
    if Judge(info, rules, decls, maps) == Unified then RemoveDecls(decls, maps) else maps
  }

  /** The extensions in iteration order, each seeing the maps its predecessors left. */
  function UnifyMaps(info: GLInfo, rules: NameRules, exts: seq<string>, maps: SymbolMaps): (r: SymbolMaps)
    requires info.Wellformed() && maps.Valid()
    requires forall e :: e in exts ==> e in info.extensions
    ensures r.Valid()
  {
    if exts == [] then maps
    else
      var e := exts[|exts| - 1];
      ApplyExtension(info, rules, info.declarations[e], UnifyMaps(info, rules, exts[..|exts| - 1], maps))
  }

  /** The whole of doWork on the constant and function lists. */
  function Unify(glInfo: Option<GLInfo>, rules: NameRules, constants: seq<ConstantDefinition>,
                 functions: seq<FunctionSymbol>): (seq<ConstantDefinition>, seq<FunctionSymbol>)
    requires glInfo.Some? ==> glInfo.value.Wellformed()
  {
    match glInfo
    case None => (constants, functions)
    case Some(info) =>
      var maps := UnifyMaps(info, rules, info.extensions,
                            SymbolMaps(BuildMap(constants, ConstantName), BuildMap(functions, FunctionName)));
      (Values(maps.constants), Values(maps.functions))
  }

  /** The names of `decls` of one kind. */
  function DeclsOfKind(decls: seq<string>, func: bool): set<string>
  {
    set d | d in decls && IsFunctionName(d) == func
  }

  lemma DeclsOfKindAppend(pre: seq<string>, d: string, func: bool)
    ensures DeclsOfKind(pre + [d], func) ==
      DeclsOfKind(pre, func) + (if IsFunctionName(d) == func then {d} else {})
  {
    assert forall x :: x in pre + [d] <==> x in pre || x == d;
  }

  /** Removing declarations only shrinks the maps. */
  lemma {:induction false} RemoveDeclsShrinks(decls: seq<string>, maps: SymbolMaps)
    requires maps.Valid()
    ensures var r := RemoveDecls(decls, maps);
      Shrinks(maps.constants, r.constants) && Shrinks(maps.functions, r.functions)
  {
    if decls == [] {
      ShrinksRefl(maps.constants);
      ShrinksRefl(maps.functions);
    } else {
      var pre := decls[..|decls| - 1];
      var d := decls[|decls| - 1];
      RemoveDeclsShrinks(pre, maps);
      var m := RemoveDecls(pre, maps);
      if IsFunctionName(d) {
        RemoveShrinks(m.functions, d);
        ShrinksTrans(maps.functions, m.functions, Remove(m.functions, d));
      } else {
        RemoveShrinks(m.constants, d);
        ShrinksTrans(maps.constants, m.constants, Remove(m.constants, d));
      }
    }
  }

  /** Removing declarations removes exactly those declarations, each from the map of its kind. */
  lemma {:induction false} RemoveDeclsKeys(decls: seq<string>, maps: SymbolMaps)
    requires maps.Valid()
    ensures var r := RemoveDecls(decls, maps);
      && r.constants.entries.Keys == maps.constants.entries.Keys - DeclsOfKind(decls, false)
      && r.functions.entries.Keys == maps.functions.entries.Keys - DeclsOfKind(decls, true)
  {
    if decls != [] {
      var pre := decls[..|decls| - 1];
      var d := decls[|decls| - 1];
      RemoveDeclsKeys(pre, maps);
      assert decls == pre + [d];
      DeclsOfKindAppend(pre, d, true);
      DeclsOfKindAppend(pre, d, false);
    }
  }

  /**
   * All or nothing per extension: if every declaration passes the three checks,
   * every one of them leaves its map and nothing else does; otherwise neither map
   * changes.
   */
  lemma ApplyExtensionAllOrNothing(info: GLInfo, rules: NameRules, decls: seq<string>, maps: SymbolMaps)
    requires maps.Valid()
    ensures var r := ApplyExtension(info, rules, decls, maps);
      if forall i :: 0 <= i < |decls| ==> Unifiable(info, rules, decls[i], maps) then
        && r.constants.entries.Keys == maps.constants.entries.Keys - DeclsOfKind(decls, false)
        && r.functions.entries.Keys == maps.functions.entries.Keys - DeclsOfKind(decls, true)
        && (forall d :: d in decls ==> !r.Emits(d))
      else
        r == maps
  {
    JudgeMeaning(info, rules, decls, maps);
    RemoveDeclsKeys(decls, maps);
  }

  lemma ApplyExtensionShrinks(info: GLInfo, rules: NameRules, decls: seq<string>, maps: SymbolMaps)
    requires maps.Valid()
    ensures var r := ApplyExtension(info, rules, decls, maps);
      Shrinks(maps.constants, r.constants) && Shrinks(maps.functions, r.functions)
  {
    RemoveDeclsShrinks(decls, maps);
    ShrinksRefl(maps.constants);
    ShrinksRefl(maps.functions);
  }

  /** Over all extensions, the maps only shrink and the survivors keep their order and values. */
  lemma {:induction false} UnifyMapsShrinks(info: GLInfo, rules: NameRules, exts: seq<string>, maps: SymbolMaps)
    requires info.Wellformed() && maps.Valid()
    requires forall e :: e in exts ==> e in info.extensions
    ensures var r := UnifyMaps(info, rules, exts, maps);
      Shrinks(maps.constants, r.constants) && Shrinks(maps.functions, r.functions)
  {
    if exts == [] {
      ShrinksRefl(maps.constants);
      ShrinksRefl(maps.functions);
    } else {
      var pre := exts[..|exts| - 1];
      var e := exts[|exts| - 1];
      UnifyMapsShrinks(info, rules, pre, maps);
      var m := UnifyMaps(info, rules, pre, maps);
      ApplyExtensionShrinks(info, rules, info.declarations[e], m);
      var r := ApplyExtension(info, rules, info.declarations[e], m);
      ShrinksTrans(maps.constants, m.constants, r.constants);
      ShrinksTrans(maps.functions, m.functions, r.functions);
    }
  }

  /**
   * The lists the unifier leaves: without header information the input lists; with
   * it, the values of maps that shrank from the maps built from the input lists,
   * so each surviving name appears once, at the position where it first occurred
   * (BuildMapFirstPositions), with the last record of that name (BuildMapLastValue).
   */
  lemma UnifyOrderPreserving(glInfo: Option<GLInfo>, rules: NameRules, constants: seq<ConstantDefinition>,
                             functions: seq<FunctionSymbol>)
    requires glInfo.Some? ==> glInfo.value.Wellformed()
    ensures glInfo.None? ==> Unify(glInfo, rules, constants, functions) == (constants, functions)
    ensures glInfo.Some? ==>
      var c0 := BuildMap(constants, ConstantName);
      var f0 := BuildMap(functions, FunctionName);
      var r := UnifyMaps(glInfo.value, rules, glInfo.value.extensions, SymbolMaps(c0, f0));
      && Shrinks(c0, r.constants) && Shrinks(f0, r.functions)
      && Unify(glInfo, rules, constants, functions) == (Values(r.constants), Values(r.functions))
  {
    if glInfo.Some? {
      UnifyMapsShrinks(glInfo.value, rules, glInfo.value.extensions,
                       SymbolMaps(BuildMap(constants, ConstantName), BuildMap(functions, FunctionName)));
    }
  }

  /**
   * The lists the unifier leaves, with header information: each surviving constant
   * and function name appears once, at the place where the name first occurred in
   * the input list, holding the last record of that name.
   */
  lemma UnifyOutputLists(glInfo: Option<GLInfo>, rules: NameRules, constants: seq<ConstantDefinition>,
                         functions: seq<FunctionSymbol>)
    requires glInfo.Some? ==> glInfo.value.Wellformed()
    ensures glInfo.Some? ==>
      var (cs, fs) := Unify(glInfo, rules, constants, functions);
      SurvivorsOf(cs, constants, ConstantName) && SurvivorsOf(fs, functions, FunctionName)
  {
    if glInfo.Some? {
      UnifyOrderPreserving(glInfo, rules, constants, functions);
      var c0 := BuildMap(constants, ConstantName);
      var f0 := BuildMap(functions, FunctionName);
      var r := UnifyMaps(glInfo.value, rules, glInfo.value.extensions, SymbolMaps(c0, f0));
      ShrunkBuildMapValues(constants, ConstantName, r.constants);
      ShrunkBuildMapValues(functions, FunctionName, r.functions);
    }
  }

  /** The symbol filter of the source: holds the lists and replaces them in doWork. */
  class ExtensionUnifier {
    const glInfo: Option<GLInfo>
    const rules: NameRules
    var constants: seq<ConstantDefinition>
    var functions: seq<FunctionSymbol>

    constructor (glInfo: Option<GLInfo>, rules: NameRules)
      ensures this.glInfo == glInfo && this.rules == rules
      ensures constants == [] && functions == []
    {
      this.glInfo := glInfo;
      this.rules := rules;
      constants := [];
      functions := [];
    }

    /** filterSymbols: store the lists, then run doWork. */
    method FilterSymbols(constants: seq<ConstantDefinition>, functions: seq<FunctionSymbol>)
      requires glInfo.Some? ==> glInfo.value.Wellformed()
      modifies this
      ensures (GetConstants(), GetFunctions()) == Unify(glInfo, rules, constants, functions)
    {
      this.constants := constants;
      this.functions := functions;
      DoWork();
    }

    /** getConstants: the constant list, unified once filterSymbols has run. */
    function GetConstants(): (r: seq<ConstantDefinition>)
      reads this
      ensures r == constants
    {
      constants
    }

    /** getFunctions: the function list, unified once filterSymbols has run. */
    function GetFunctions(): (r: seq<FunctionSymbol>)
      reads this
      ensures r == functions
    {
      functions
    }

    /** The inner loop over one extension's declarations, with its three break points. */
    method CheckExtension(decls: seq<string>, maps: SymbolMaps) returns (v: Verdict)
      requires glInfo.Some?
      ensures v == Judge(glInfo.value, rules, decls, maps)
    {
      var info := glInfo.value;
      var k := 0;
      while k < |decls|
        invariant 0 <= k <= |decls|
        invariant Judge(info, rules, decls, maps) == Judge(info, rules, decls[k..], maps)
      {
        var decl := decls[k];
        var isFunc := IsFunctionName(decl);
        assert decls[k..][1..] == decls[k + 1..];
        if !rules.isExtension(decl, isFunc) {
          return NotAnExtension;
        }
        if isFunc {
          if decl !in maps.functions.entries {
            return NotAnExtension;
          }
        } else {
          if decl !in maps.constants.entries {
            return NotAnExtension;
          }
        }
        var unifiedName := rules.normalize(decl, isFunc);
        var shouldUnify := info.GetExtension(unifiedName).Some?;
        if !shouldUnify {
          return NotUnified(decl);
        }
        k := k + 1;
      }
      v := Unified;
    }

    /** The removal loop of doWork for an extension found unifiable. */
    method RemoveDeclarations(declarations: seq<string>, maps: SymbolMaps) returns (r: SymbolMaps)
      requires maps.Valid()
      ensures r == RemoveDecls(declarations, maps)
    {
      r := maps;
      var k := 0;
      while k < |declarations|
        invariant 0 <= k <= |declarations|
        invariant r.Valid()
        invariant r == RemoveDecls(declarations[..k], maps)
      {
        var decl := declarations[k];
        assert declarations[..k + 1][..k] == declarations[..k];
        if IsFunctionName(decl) {
          r := r.(functions := Remove(r.functions, decl));
        } else {
          r := r.(constants := Remove(r.constants, decl));
        }
        k := k + 1;
      }
      assert declarations[..k] == declarations;
    }

    /** doWork: build the two ordered maps, drop unified extensions, rebuild the lists. */
    method DoWork()
      requires glInfo.Some? ==> glInfo.value.Wellformed()
      modifies this
      ensures (constants, functions) == Unify(glInfo, rules, old(constants), old(functions))
    {
      if glInfo.None? {
        return;
      }
      var info := glInfo.value;
      var constantMap := PutAll(constants, ConstantName);
      var functionMap := PutAll(functions, FunctionName);
      var maps := SymbolMaps(constantMap, functionMap);
      ghost var start := maps;
      var e := 0;
      while e < |info.extensions|
        invariant 0 <= e <= |info.extensions|
        invariant maps.Valid()
        invariant maps == UnifyMaps(info, rules, info.extensions[..e], start)
      {
        var extension := info.extensions[e];
        var declarations := info.declarations[extension];
        var verdict := CheckExtension(declarations, maps);
        if verdict == Unified {
          maps := RemoveDeclarations(declarations, maps);
        }
        assert info.extensions[..e + 1][..e] == info.extensions[..e];
        e := e + 1;
      }
      assert info.extensions[..e] == info.extensions;
      constants := ValuesInOrder(maps.constants);
      functions := ValuesInOrder(maps.functions);
    }
  }
}
