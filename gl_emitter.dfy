/**
 * GLEmitter: the OpenGL-specific stages of the binding generator. Renaming of
 * extensions into the core namespace, buffer-object variants of method bindings,
 * and the extension annotation of emitted constants. The extension unifier, an
 * inner class of the same source file, is in module ExtensionUnifier; the emitted
 * address resolver is in module ProcAddressTable.
 */
module GLEmitter {
  import opened Wrappers
  import opened SeqUtil
  import opened GLCollaborators

  // ---------------------------------------------------------------------------
  // Renaming extensions into core

  /** The name a declaration is normalized to, in the namespace its kind selects. */
  function Normalized(rules: NameRules, decl: string): string
  {
    rules.normalize(decl, rules.isGLFunction(decl))
  }

  /** A declaration gets a rename entry: it is a GL function or enumeration and normalizing changes it. */
  predicate Renamable(rules: NameRules, decl: string)
  {
    (rules.isGLFunction(decl) || rules.isGLEnumeration(decl)) && Normalized(rules, decl) != decl
  }

  /** The (declared, renamed) pairs of one extension's declarations, in order. */
  function DeclPairs(rules: NameRules, decls: seq<string>): seq<(string, string)>
  {
    if decls == [] then []
    else
      var d := decls[|decls| - 1];
      DeclPairs(rules, decls[..|decls| - 1]) + (if Renamable(rules, d) then [(d, Normalized(rules, d))] else [])
  }

  /** The pairs of all extensions renamed into core; one without declarations adds none. */
  function RenamePairs(info: GLInfo, rules: NameRules, exts: seq<string>): seq<(string, string)>
  {
    if exts == [] then []
    else
      var e := exts[|exts| - 1];
      RenamePairs(info, rules, exts[..|exts| - 1]) +
        (if e in info.declarations then DeclPairs(rules, info.declarations[e]) else [])
  }

  /** addJavaSymbolRename for each pair in turn: a later entry for a name overrides an earlier one. */
  function ApplyRenames(table: map<string, string>, pairs: seq<(string, string)>): map<string, string>
  {
    if pairs == [] then table
    else
      var p := pairs[|pairs| - 1];
      ApplyRenames(table, pairs[..|pairs| - 1])[p.0 := p.1]
  }

  /** A declaration of a renamed extension that gets a rename entry. */
  ghost predicate RenamedByConfig(info: GLInfo, rules: NameRules, exts: seq<string>, d: string)
  {
    Renamable(rules, d) && exists e :: e in exts && e in info.declarations && d in info.declarations[e]
  }

  lemma {:induction false} DeclPairsMeaning(rules: NameRules, decls: seq<string>)
    ensures forall p :: p in DeclPairs(rules, decls) <==>
      p.0 in decls && Renamable(rules, p.0) && p.1 == Normalized(rules, p.0)
  {
    if decls != [] {
      var pre := decls[..|decls| - 1];
      DeclPairsMeaning(rules, pre);
      assert decls == pre + [decls[|decls| - 1]];
    }
  }

  /**
   * The renamer's pairs are exactly the declarations of the renamed extensions that
   * are GL functions or enumerations and change under normalization, each paired
   * with its normalized name.
   */
  lemma {:induction false} RenamePairsMeaning(info: GLInfo, rules: NameRules, exts: seq<string>)
    ensures forall p :: p in RenamePairs(info, rules, exts) <==>
      RenamedByConfig(info, rules, exts, p.0) && p.1 == Normalized(rules, p.0)
  {
    if exts != [] {
      var pre := exts[..|exts| - 1];
      var e := exts[|exts| - 1];
      RenamePairsMeaning(info, rules, pre);
      if e in info.declarations {
        DeclPairsMeaning(rules, info.declarations[e]);
      }
      assert exts == pre + [e];
      forall p ensures p in RenamePairs(info, rules, exts) <==>
        RenamedByConfig(info, rules, exts, p.0) && p.1 == Normalized(rules, p.0)
      {
        if RenamedByConfig(info, rules, exts, p.0) && p.1 == Normalized(rules, p.0) {
          var e' :| e' in exts && e' in info.declarations && p.0 in info.declarations[e'];
          if e' != e {
            assert e' in pre;
            assert RenamedByConfig(info, rules, pre, p.0);
          }
        }
      }
    }
  }

  lemma {:induction false} ApplyRenamesConcat(table: map<string, string>, a: seq<(string, string)>, b: seq<(string, string)>)
    ensures ApplyRenames(table, a + b) == ApplyRenames(ApplyRenames(table, a), b)
  {
    if b != [] {
      var pre := b[..|b| - 1];
      var p := b[|b| - 1];
      assert (a + b)[..|a + b| - 1] == a + pre;
      assert (a + b)[|a + b| - 1] == p;
      calc {
        ApplyRenames(table, a + b);
        ApplyRenames(table, a + pre)[p.0 := p.1];
        { ApplyRenamesConcat(table, a, pre); }
        ApplyRenames(ApplyRenames(table, a), pre)[p.0 := p.1];
        ApplyRenames(ApplyRenames(table, a), b);
      }
    } else {
      assert a + b == a;
    }
  }

  /** Applying pairs is overriding the table by the pairs applied to an empty table. */
  lemma {:induction false} ApplyRenamesOverrides(table: map<string, string>, pairs: seq<(string, string)>)
    ensures ApplyRenames(table, pairs) == table + ApplyRenames(map[], pairs)
  {
    if pairs != [] {
      ApplyRenamesOverrides(table, pairs[..|pairs| - 1]);
    }
  }

  /** Running the renamer a second time changes nothing. */
  lemma RenameIdempotent(table: map<string, string>, pairs: seq<(string, string)>)
    ensures ApplyRenames(ApplyRenames(table, pairs), pairs) == ApplyRenames(table, pairs)
  {
    var p := ApplyRenames(map[], pairs);
    ApplyRenamesOverrides(table, pairs);
    ApplyRenamesOverrides(table + p, pairs);
    assert (table + p) + p == table + p;
  }

  /** When every pair maps its name to F(name), the applied pairs map each of their names to F. */
  lemma {:induction false} ApplyRenamesLookup(table: map<string, string>, pairs: seq<(string, string)>, rules: NameRules)
    requires forall p :: p in pairs ==> p.1 == Normalized(rules, p.0)
    ensures forall d :: d in ApplyRenames(table, pairs) <==> d in table || exists p :: p in pairs && p.0 == d
    ensures forall p :: p in pairs ==> ApplyRenames(table, pairs)[p.0] == Normalized(rules, p.0)
    ensures forall d :: d in table && (forall p :: p in pairs ==> p.0 != d) ==> ApplyRenames(table, pairs)[d] == table[d]
  {
    if pairs != [] {
      var pre := pairs[..|pairs| - 1];
      assert pairs == pre + [pairs[|pairs| - 1]];
      ApplyRenamesLookup(table, pre, rules);
    }
  }

  /**
   * The rename table after the renamer: every declaration of a renamed extension
   * that is a GL function or enumeration and changes under normalization maps to
   * its normalized name; every other entry is as before.
   */
  lemma RenameTable(table: map<string, string>, info: GLInfo, rules: NameRules, exts: seq<string>)
    ensures var t := ApplyRenames(table, RenamePairs(info, rules, exts));
      && (forall d :: RenamedByConfig(info, rules, exts, d) ==> d in t && t[d] == Normalized(rules, d))
      && (forall d :: !RenamedByConfig(info, rules, exts, d) ==> (d in t <==> d in table) && (d in t ==> t[d] == table[d]))
  {
    var pairs := RenamePairs(info, rules, exts);
    RenamePairsMeaning(info, rules, exts);
    ApplyRenamesLookup(table, pairs, rules);
    forall d | RenamedByConfig(info, rules, exts, d)
      ensures d in ApplyRenames(table, pairs) && ApplyRenames(table, pairs)[d] == Normalized(rules, d)
    {
      var p := (d, Normalized(rules, d));
      assert p in pairs;
      assert ApplyRenames(table, pairs)[p.0] == Normalized(rules, p.0);
    }
  }

  // ---------------------------------------------------------------------------
  // Buffer-object variants

  /** A buffer-object argument list: every NIO Buffer argument becomes a Java long. */
  function BufferObjectArgs(args: seq<JavaArgType>): (r: seq<JavaArgType>)
    ensures |r| == |args|
    ensures forall i :: 0 <= i < |args| ==> r[i] == if args[i] == NIOBuffer then JavaLong else args[i]
  {
    if args == [] then []
    else
      var a := args[|args| - 1];
      BufferObjectArgs(args[..|args| - 1]) + [if a == NIOBuffer then JavaLong else a]
  }

  /**
   * A buffer-object variant differs from its source exactly when the source has an
   * NIO Buffer argument; the variant has none left.
   */
  lemma BufferObjectArgsDiffer(args: seq<JavaArgType>)
    ensures BufferObjectArgs(args) != args <==> HasNIOBuffer(args)
    ensures !HasNIOBuffer(BufferObjectArgs(args))
  {
    if HasNIOBuffer(args) {
      var i :| 0 <= i < |args| && args[i] == NIOBuffer;
      assert BufferObjectArgs(args)[i] != args[i];
    }
  }

  /** The base bindings that get a variant: those without Java primitive arrays, in order. */
  function Eligible(bindings: seq<MethodBinding>): seq<MethodBinding>
  {
    if bindings == [] then []
    else
      var b := bindings[|bindings| - 1];
      Eligible(bindings[..|bindings| - 1]) + (if UsesJavaPrimitiveArrays(b.args) then [] else [b])
  }

  /** Exactly the base bindings without Java primitive arrays are eligible, in their order. */
  lemma {:induction false} EligibleMeaning(bindings: seq<MethodBinding>)
    ensures forall j :: 0 <= j < |Eligible(bindings)| ==>
      Eligible(bindings)[j] in bindings && !UsesJavaPrimitiveArrays(Eligible(bindings)[j].args)
    ensures forall j :: 0 <= j < |bindings| && !UsesJavaPrimitiveArrays(bindings[j].args) ==>
      bindings[j] in Eligible(bindings)
  {
    if bindings != [] {
      var b := bindings[|bindings| - 1];
      var pre := bindings[..|bindings| - 1];
      EligibleMeaning(pre);
      assert bindings == pre + [b];
      forall j | 0 <= j < |bindings| && !UsesJavaPrimitiveArrays(bindings[j].args)
        ensures bindings[j] in Eligible(bindings)
      {
        if j < |pre| {
          assert bindings[j] == pre[j];
        }
      }
    }
  }

  /** The eligible bindings of a prefix are a prefix of the eligible bindings. */
  lemma {:induction false} EligiblePrefix(bindings: seq<MethodBinding>, k: nat)
    requires k <= |bindings|
    ensures Eligible(bindings[..k]) <= Eligible(bindings)
    decreases |bindings|
  {
    if k < |bindings| {
      var pre := bindings[..|bindings| - 1];
      assert pre[..k] == bindings[..k];
      EligiblePrefix(pre, k);
    } else {
      assert bindings[..k] == bindings;
    }
  }

  lemma AllHaveNIOBufferSnoc(bs: seq<MethodBinding>, b: MethodBinding)
    requires AllHaveNIOBuffer(bs) && HasNIOBuffer(b.args)
    ensures AllHaveNIOBuffer(bs + [b])
  {
    assert forall j :: 0 <= j < |bs| ==> (bs + [b])[j] == bs[j];
  }

  /** One more base binding is eligible exactly when it uses no Java primitive array. */
  lemma EligibleSnoc(bindings: seq<MethodBinding>, i: nat)
    requires i < |bindings|
    ensures Eligible(bindings[..i + 1]) ==
      Eligible(bindings[..i]) + (if UsesJavaPrimitiveArrays(bindings[i].args) then [] else [bindings[i]])
  {
    assert bindings[..i + 1][..i] == bindings[..i];
  }

  /** Every binding has an NIO Buffer argument. */
  predicate AllHaveNIOBuffer(bs: seq<MethodBinding>)
  {
    forall j :: 0 <= j < |bs| ==> HasNIOBuffer(bs[j].args)
  }

  /** `variants` are the buffer-object variants of `eligible`, position by position. */
  predicate VariantsOf(variants: seq<MethodBinding>, eligible: seq<MethodBinding>)
  {
    && |variants| == |eligible|
    && forall j :: 0 <= j < |variants| ==>
         variants[j].name == eligible[j].name && variants[j].args == BufferObjectArgs(eligible[j].args)
  }

  lemma VariantsOfAppend(variants: seq<MethodBinding>, eligible: seq<MethodBinding>, v: MethodBinding, b: MethodBinding)
    requires VariantsOf(variants, eligible)
    requires v.name == b.name && v.args == BufferObjectArgs(b.args)
    ensures VariantsOf(variants + [v], eligible + [b])
  {
  }

  // ---------------------------------------------------------------------------
  // Extension annotation of constants

  /** The names addExtensionsOfSymbols2Buffer looks up: the first name, when present, then the aliases. */
  function Symbols(first: Option<string>, aliases: seq<string>): seq<string>
  {
    (if first.Some? then [first.value] else []) + aliases
  }

  /** The extensions of the names that have one, in order. */
  function KnownExtensions(info: GLInfo, names: seq<string>): seq<string>
  {
    if names == [] then []
    else
      var n := names[|names| - 1];
      KnownExtensions(info, names[..|names| - 1]) + (if n in info.extensionOf then [info.extensionOf[n]] else [])
  }

  /** The parts separated by `sep`. */
  function Join(parts: seq<string>, sep: string): string
  {
    if parts == [] then ""
    else if |parts| == 1 then parts[0]
    else Join(parts[..|parts| - 1], sep) + sep + parts[|parts| - 1]
  }

  /** One more name contributes its extension, if it has one, at the end. */
  lemma KnownExtensionsSnoc(info: GLInfo, names: seq<string>, i: nat)
    requires i < |names|
    ensures KnownExtensions(info, names[..i + 1]) ==
      KnownExtensions(info, names[..i]) + (if names[i] in info.extensionOf then [info.extensionOf[names[i]]] else [])
  {
    assert names[..i + 1][..i] == names[..i];
  }

  /** Appending a part adds a separator only after a non-empty list. */
  lemma JoinSnoc(parts: seq<string>, p: string, sep: string)
    ensures Join(parts + [p], sep) == if parts == [] then p else Join(parts, sep) + sep + p
  {
    assert (parts + [p])[..|parts|] == parts;
  }

  /**
   * The text the source appends: after each extension found, the separator whenever
   * any name at all is left to look at, even one that has no extension.
   */
  function AsWrittenText(info: GLInfo, names: seq<string>, sep: string): string
  {
    if names == [] then ""
    else
      (if names[0] in info.extensionOf
       then info.extensionOf[names[0]] + (if |names| > 1 then sep else "")
       else "") + AsWrittenText(info, names[1..], sep)
  }

  lemma {:induction false} KnownExtensionsCons(info: GLInfo, x: string, rest: seq<string>)
    ensures KnownExtensions(info, [x] + rest) ==
      (if x in info.extensionOf then [info.extensionOf[x]] else []) + KnownExtensions(info, rest)
  {
    if rest != [] {
      var pre := rest[..|rest| - 1];
      assert ([x] + rest)[..|[x] + rest| - 1] == [x] + pre;
      KnownExtensionsCons(info, x, pre);
    }
  }

  lemma {:induction false} JoinCons(a: string, rest: seq<string>, sep: string)
    ensures Join([a] + rest, sep) == if rest == [] then a else a + sep + Join(rest, sep)
  {
    if |rest| > 1 {
      var pre := rest[..|rest| - 1];
      assert ([a] + rest)[..|[a] + rest| - 1] == [a] + pre;
      JoinCons(a, pre, sep);
    } else if |rest| == 1 {
      assert ([a] + rest)[..1] == [a];
    }
  }

  /**
   * The text the source appends is the extensions joined by the separator whenever
   * the last name looked up has an extension; only a trailing name without one
   * leaves a dangling separator.
   */
  lemma {:induction false} AsWrittenTextWhenLastKnown(info: GLInfo, names: seq<string>, sep: string)
    requires names != [] ==> names[|names| - 1] in info.extensionOf
    ensures AsWrittenText(info, names, sep) == Join(KnownExtensions(info, names), sep)
  {
    if names != [] {
      var x := names[0];
      var rest := names[1..];
      assert names == [x] + rest;
      KnownExtensionsCons(info, x, rest);
      var known := KnownExtensions(info, rest);
      if rest != [] {
        assert rest[|rest| - 1] == names[|names| - 1];
        assert known != [];
      }
      AsWrittenTextWhenLastKnown(info, rest, sep);
      assert AsWrittenText(info, rest, sep) == Join(known, sep);
      if x in info.extensionOf {
        var ext := info.extensionOf[x];
        JoinCons(ext, known, sep);
        assert KnownExtensions(info, names) == [ext] + known;
        if rest == [] {
          assert AsWrittenText(info, names, sep) == ext + "" + "";
        } else {
          assert AsWrittenText(info, names, sep) == ext + sep + Join(known, sep);
        }
      } else {
        assert rest != [];
        assert KnownExtensions(info, names) == known;
        assert AsWrittenText(info, names, sep) == "" + Join(known, sep);
      }
    }
  }

  /** Input that shows the dangling separator: a name with an extension, then an alias without one. */
  lemma TrailingSeparatorExample()
    ensures var info := GLInfo([], map[], map["GL_FOO" := "GL_VERSION_1_2"]);
      && AsWrittenText(info, ["GL_FOO", "GL_FOO_ALIAS"], ", ") == "GL_VERSION_1_2, "
      && Join(KnownExtensions(info, ["GL_FOO", "GL_FOO_ALIAS"]), ", ") == "GL_VERSION_1_2"
  {
    var info := GLInfo([], map[], map["GL_FOO" := "GL_VERSION_1_2"]);
    assert ["GL_FOO", "GL_FOO_ALIAS"][1..] == ["GL_FOO_ALIAS"];
    assert ["GL_FOO", "GL_FOO_ALIAS"][..1] == ["GL_FOO"];
    assert "GL_FOO_ALIAS" != "GL_FOO";
  }

  /** What emitDefine hands on: the constant with its comment, or nothing when it is dropped. */
  datatype DefineOutcome = Emitted(def: ConstantDefinition, comment: string) | Dropped

  /** The text between the code tags: the extensions, or the enum's name, or the core markers. */
  function Annotation(def: ConstantDefinition, exts: seq<string>, sep: string): string
  {
    if |exts| > 0 then Join(exts, sep)
    else if def.isEnum then (if def.enumName.Some? then def.enumName.value else "CORE ENUM")
    else "CORE DEF"
  }

  /** The comment of an emitted constant. */
  function DefineComment(def: ConstantDefinition, exts: seq<string>, optionalComment: Option<string>): string
  {
    "Part of <code>" + Annotation(def, exts, ", ") + "</code>" +
      (if optionalComment.Some? then "<br>" + optionalComment.value else "")
  }

  // ---------------------------------------------------------------------------
  // The emitter

  class GLEmitter {
    const config: GLConfiguration
    const rules: NameRules
    /** The configuration's Java symbol rename table, which the renamer extends. */
    var javaSymbolRenames: map<string, string>
    /** The buffer-object variants created so far, by identity. */
    var bufferObjectMethodBindings: set<MethodBinding>

    constructor (config: GLConfiguration, rules: NameRules, renames: map<string, string>)
      ensures this.config == config && this.rules == rules
      ensures javaSymbolRenames == renames && bufferObjectMethodBindings == {}
    {
      this.config := config;
      this.rules := rules;
      javaSymbolRenames := renames;
      bufferObjectMethodBindings := {};
    }

    /**
     * renameExtensionsIntoCore: without header information it fails when any
     * extension is to be renamed and otherwise does nothing; with it, every
     * renamable declaration of those extensions enters the rename table.
     */
    method RenameExtensionsIntoCore() returns (ok: bool)
      modifies this`javaSymbolRenames
      ensures ok <==> config.glInfo.Some? || |config.extensionsRenamedIntoCore| == 0
      ensures javaSymbolRenames ==
        if config.glInfo.None? then old(javaSymbolRenames)
        else ApplyRenames(old(javaSymbolRenames), RenamePairs(config.glInfo.value, rules, config.extensionsRenamedIntoCore))
    {
      var exts := config.extensionsRenamedIntoCore;
      if config.glInfo.None? {
        return |exts| == 0;
      }
      var info := config.glInfo.value;
      var e := 0;
      while e < |exts|
        invariant 0 <= e <= |exts|
        invariant javaSymbolRenames == ApplyRenames(old(javaSymbolRenames), RenamePairs(info, rules, exts[..e]))
      {
        var extension := exts[e];
        assert exts[..e + 1][..e] == exts[..e];
        assert exts[..e + 1][e] == extension;
        ghost var added := if extension in info.declarations then DeclPairs(rules, info.declarations[extension]) else [];
        assert RenamePairs(info, rules, exts[..e + 1]) == RenamePairs(info, rules, exts[..e]) + added;
        if extension !in info.declarations {
          assert RenamePairs(info, rules, exts[..e]) + added == RenamePairs(info, rules, exts[..e]);
        }
        if extension in info.declarations {
          var declarations := info.declarations[extension];
          AddDeclarationRenames(declarations);
          ApplyRenamesConcat(old(javaSymbolRenames), RenamePairs(info, rules, exts[..e]), DeclPairs(rules, declarations));
        }
        e := e + 1;
      }
      assert exts[..e] == exts;
      ok := true;
    }

    /** The renamer's inner loop: the rename entries of one extension's declarations. */
    method AddDeclarationRenames(declarations: seq<string>)
      modifies this`javaSymbolRenames
      ensures javaSymbolRenames == ApplyRenames(old(javaSymbolRenames), DeclPairs(rules, declarations))
    {
      var k := 0;
      while k < |declarations|
        invariant 0 <= k <= |declarations|
        invariant javaSymbolRenames == ApplyRenames(old(javaSymbolRenames), DeclPairs(rules, declarations[..k]))
      {
        var decl := declarations[k];
        assert declarations[..k + 1][..k] == declarations[..k];
        assert declarations[..k + 1][k] == decl;
        ghost var pairs := DeclPairs(rules, declarations[..k]);
        ghost var step := if Renamable(rules, decl) then [(decl, Normalized(rules, decl))] else [];
        assert DeclPairs(rules, declarations[..k + 1]) == pairs + step;
        ApplyRenamesConcat(old(javaSymbolRenames), pairs, step);
        var isGLFunction := rules.isGLFunction(decl);
        var isGLEnumeration := false;
        if !isGLFunction {
          isGLEnumeration := rules.isGLEnumeration(decl);
        }
        if isGLFunction || isGLEnumeration {
          var renamed := rules.normalize(decl, isGLFunction);
          if renamed != decl {
            javaSymbolRenames := javaSymbolRenames[decl := renamed];
          }
        }
        k := k + 1;
      }
      assert declarations[..k] == declarations;
    }

    /** The loop over one binding's arguments: every NIO Buffer becomes a long. */
    static method ReplaceNIOBuffers(args: seq<JavaArgType>) returns (newArgs: seq<JavaArgType>, replaced: bool)
      ensures newArgs == BufferObjectArgs(args)
      ensures replaced <==> HasNIOBuffer(args)
    {
      newArgs := [];
      replaced := false;
      var i := 0;
      while i < |args|
        invariant 0 <= i <= |args|
        invariant newArgs == BufferObjectArgs(args[..i])
        invariant replaced <==> HasNIOBuffer(args[..i])
      {
        assert args[..i + 1][..i] == args[..i];
        if args[i] == NIOBuffer {
          newArgs := newArgs + [JavaLong];
          replaced := true;
        } else {
          newArgs := newArgs + [args[i]];
        }
        assert HasNIOBuffer(args[..i + 1]) <==> HasNIOBuffer(args[..i]) || args[i] == NIOBuffer by {
          assert forall j :: 0 <= j < i ==> args[..i + 1][j] == args[..i][j];
        }
        i := i + 1;
      }
      assert args[..i] == args;
    }

    /**
     * The body of expandMethodBinding's loop for one eligible binding: a new binding
     * with every NIO Buffer argument turned into a long, registered as a
     * buffer-object variant; none when there is no NIO Buffer argument.
     */
    method AddBufferObjectVariant(cur: MethodBinding) returns (variant: Option<MethodBinding>)
      modifies this`bufferObjectMethodBindings
      ensures variant.Some? <==> HasNIOBuffer(cur.args)
      ensures variant.Some? ==>
        && fresh(variant.value)
        && variant.value.name == cur.name
        && variant.value.args == BufferObjectArgs(cur.args)
        && bufferObjectMethodBindings == old(bufferObjectMethodBindings) + {variant.value}
      ensures variant.None? ==> bufferObjectMethodBindings == old(bufferObjectMethodBindings)
      ensures variant.Some? ==> IsBufferObjectMethodBinding(variant.value)
    {
      var newArgs, replaced := ReplaceNIOBuffers(cur.args);
      if !replaced {
        return None;
      }
      var result := new MethodBinding(cur.name, newArgs);
      bufferObjectMethodBindings := bufferObjectMethodBindings + {result};
      variant := Some(result);
    }

    /**
     * The loop of expandMethodBinding: one buffer-object variant per base binding
     * without Java primitive arrays, in order, each recorded as it is made; it stops
     * at the first such binding without an NIO Buffer argument.
     */
    method CollectBufferObjectVariants(bindings: seq<MethodBinding>)
      returns (variants: seq<MethodBinding>, ok: bool)
      modifies this`bufferObjectMethodBindings
      ensures ok <==> AllHaveNIOBuffer(Eligible(bindings))
      ensures ok ==> VariantsOf(variants, Eligible(bindings))
      ensures forall j :: 0 <= j < |variants| ==> fresh(variants[j])
      ensures bufferObjectMethodBindings == old(bufferObjectMethodBindings) + Elems(variants)
    {
      variants := [];
      var i := 0;
      ghost var eligible: seq<MethodBinding> := [];
      while i < |bindings|
        invariant 0 <= i <= |bindings|
        invariant eligible == Eligible(bindings[..i])
        invariant VariantsOf(variants, eligible)
        invariant forall j :: 0 <= j < |variants| ==> fresh(variants[j])
        invariant bufferObjectMethodBindings == old(bufferObjectMethodBindings) + Elems(variants)
        invariant AllHaveNIOBuffer(eligible)
      {
        var cur := bindings[i];
        EligibleSnoc(bindings, i);
        if UsesJavaPrimitiveArrays(cur.args) {
          i := i + 1;
          continue;
        }
        var variant := AddBufferObjectVariant(cur);
        if variant.None? {
          EligiblePrefix(bindings, i + 1);
          assert Eligible(bindings)[|eligible|] == cur;
          return variants, false;
        }
        VariantsOfAppend(variants, eligible, variant.value, cur);
        AllHaveNIOBufferSnoc(eligible, cur);
        ElemsSnoc(variants, variant.value);
        variants := variants + [variant.value];
        eligible := eligible + [cur];
        i := i + 1;
      }
      assert bindings[..i] == bindings;
      ok := true;
    }

    /**
     * expandMethodBinding for the bindings the base emitter generated for `sym`: for
     * a buffer-object function, the base bindings followed by one new binding per
     * base binding without Java primitive arrays, each recorded as a buffer-object
     * variant. It fails when such a binding has no NIO Buffer argument to replace.
     */
    method ExpandMethodBinding(sym: FunctionSymbol, bindings: seq<MethodBinding>)
      returns (r: Result<seq<MethodBinding>, string>)
      modifies this`bufferObjectMethodBindings
      ensures !NeedsBufferObjectVariant(sym) ==>
        r == Ok(bindings) && bufferObjectMethodBindings == old(bufferObjectMethodBindings)
      ensures NeedsBufferObjectVariant(sym) ==>
        (r.Ok? <==> AllHaveNIOBuffer(Eligible(bindings)))
      ensures r.Ok? && NeedsBufferObjectVariant(sym) ==>
        && |bindings| <= |r.value|
        && r.value[..|bindings|] == bindings
        && VariantsOf(r.value[|bindings|..], Eligible(bindings))
        && (forall j :: |bindings| <= j < |r.value| ==> fresh(r.value[j]))
        && bufferObjectMethodBindings == old(bufferObjectMethodBindings) + Elems(r.value[|bindings|..])
      ensures r.Err? ==>
        && r.error == sym.name
        && old(bufferObjectMethodBindings) <= bufferObjectMethodBindings
        && (forall b :: b in bufferObjectMethodBindings - old(bufferObjectMethodBindings) ==> fresh(b))
      ensures r.Ok? ==> forall j :: |bindings| <= j < |r.value| ==> IsBufferObjectMethodBinding(r.value[j])
      ensures forall b :: b in bindings ==> (IsBufferObjectMethodBinding(b) <==> old(IsBufferObjectMethodBinding(b)))
      ensures r.Ok? && |r.value| > |bindings| ==>
        && NeedsBufferObjectVariant(sym)
        && (sym.name !in config.unimplemented ==> NeedsModifiedEmitters(sym, false))
    {
      if !NeedsBufferObjectVariant(sym) {
        return Ok(bindings);
      }
      var variants, ok := CollectBufferObjectVariants(bindings);
      if !ok {
        return Err(sym.name);
      }
      r := Ok(bindings + variants);
      assert r.value[|bindings|..] == variants;
      assert r.value[..|bindings|] == bindings;
    }

    /** isBufferObjectMethodBinding: membership by identity. */
    function IsBufferObjectMethodBinding(binding: MethodBinding): (r: bool)
      reads this
      ensures r <==> binding in bufferObjectMethodBindings
    {
      binding in bufferObjectMethodBindings
    }

    /** needsBufferObjectVariant: the function is configured as a buffer-object function. */
    function NeedsBufferObjectVariant(sym: FunctionSymbol): (r: bool)
      ensures r <==> sym.name in config.bufferObjectFunctions
    {
      sym.name in config.bufferObjectFunctions
    }

    /**
     * needsModifiedEmitters, given the base emitter's answer to
     * needsProcAddressWrapper: false for an unimplemented function, otherwise true
     * exactly when a proc-address wrapper or a buffer-object variant is needed.
     */
    function NeedsModifiedEmitters(sym: FunctionSymbol, needsProcAddressWrapper: bool): (r: bool)
      ensures r ==> sym.name !in config.unimplemented
      ensures r ==> needsProcAddressWrapper || sym.name in config.bufferObjectFunctions
      ensures sym.name !in config.unimplemented && sym.name in config.bufferObjectFunctions ==> r
      ensures sym.name !in config.unimplemented && needsProcAddressWrapper ==> r
    {
      if (!needsProcAddressWrapper && !NeedsBufferObjectVariant(sym)) || sym.name in config.unimplemented then false
      else true
    }

    /**
     * addExtensionsOfSymbols2Buffer, corrected so that no separator dangles: the
     * extensions of the first name and then of the aliases, joined by `sep`, and
     * their number. Fails without header information.
     */
    method AddExtensionsOfSymbols2Buffer(sep: string, first: Option<string>, aliases: seq<string>)
      returns (r: Result<(string, nat), string>)
      ensures config.glInfo.None? <==> r.Err?
      ensures r.Ok? ==>
        var exts := KnownExtensions(config.glInfo.value, Symbols(first, aliases));
        r.value.0 == Join(exts, sep) && r.value.1 == |exts|
    {
      if config.glInfo.None? {
        return Err("No GLInfo");
      }
      var info := config.glInfo.value;
      var names := Symbols(first, aliases);
      var text := "";
      var num := 0;
      var i := 0;
      ghost var exts: seq<string> := [];
      while i < |names|
        invariant 0 <= i <= |names|
        invariant exts == KnownExtensions(info, names[..i])
        invariant num == |exts| && text == Join(exts, sep)
      {
        KnownExtensionsSnoc(info, names, i);
        var extensionName := info.GetExtension(names[i]);
        if extensionName.Some? {
          var ext := extensionName.value;
          JoinSnoc(exts, ext, sep);
          if num > 0 {
            text := text + sep;
          } else {
            assert exts == [] && text == [];
          }
          text := text + ext;
          num := num + 1;
          exts := exts + [ext];
        }
        i := i + 1;
      }
      assert names[..i] == names;
      r := Ok((text, num));
    }

    /**
     * emitDefine: fails without header information; drops a constant that no
     * extension declares, that is no enum member, when non-GL extensions are not
     * allowed; otherwise emits it with its "Part of" comment.
     */
    method EmitDefine(def: ConstantDefinition, optionalComment: Option<string>)
      returns (r: Result<DefineOutcome, string>)
      ensures config.glInfo.None? <==> r.Err?
      ensures r.Ok? ==>
        var exts := KnownExtensions(config.glInfo.value, Symbols(Some(def.name), def.aliasedNames));
        && (r.value == Dropped <==> |exts| == 0 && !def.isEnum && !config.allowNonGLExtensions)
        && (r.value.Emitted? ==> r.value == Emitted(def, DefineComment(def, exts, optionalComment)))
    {
      if config.glInfo.None? {
        return Err("No GLInfo");
      }
      var found := AddExtensionsOfSymbols2Buffer(", ", Some(def.name), def.aliasedNames);
      var (text, num) := found.value;
      ghost var exts := KnownExtensions(config.glInfo.value, Symbols(Some(def.name), def.aliasedNames));
      var comment := "Part of <code>" + text;
      if num == 0 {
        assert exts == [] && text == "";
        assert comment == "Part of <code>";
        if def.isEnum {
          if def.enumName.Some? {
            comment := comment + def.enumName.value;
          } else {
            comment := comment + "CORE ENUM";
          }
        } else {
          if config.allowNonGLExtensions {
            comment := comment + "CORE DEF";
          } else {
            return Ok(Dropped);
          }
        }
      }
      assert comment == "Part of <code>" + Annotation(def, exts, ", ");
      comment := comment + "</code>";
      if optionalComment.Some? {
        comment := comment + ("<br>" + optionalComment.value);
      }
      r := Ok(Emitted(def, comment));
    }
  }
}
