/**
 * The parts of the GlueGen code generator that the OpenGL emitter uses but that are
 * not part of this model: the naming rules of GLExtensionNames, the header
 * information of BuildStaticGLInfo, the configuration, and the symbol and binding
 * records. They are given values: nothing here is computed.
 */
module GLCollaborators {
  import opened Wrappers

  /**
   * The static helpers of GLExtensionNames, each an arbitrary function supplied by
   * the caller. The Boolean argument says whether the name is a function name
   * (true) or an enumeration name (false).
   */
  datatype NameRules = NameRules(
    isGLFunction: string -> bool,
    isGLEnumeration: string -> bool,
    isExtension: (string, bool) -> bool,
    normalize: (string, bool) -> string,
    normalizeARB: (string, bool) -> string,
    normalizeVEN: (string, bool) -> string,
    funcNamePermutationNumber: string -> nat,
    funcNamePermutation: (string, nat) -> string)

  /**
   * BuildStaticGLInfo, the symbol information parsed from the GL headers:
   * the extension names in iteration order, the declarations of each extension
   * in iteration order, and for a symbol the extension (or core version marker)
   * that declares it.
   */
  datatype GLInfo = GLInfo(
    extensions: seq<string>,
    declarations: map<string, seq<string>>,
    extensionOf: map<string, string>)
  {
    /** getExtensions() is the key set of the declaration table. */
    predicate Wellformed()
    {
      forall e :: e in extensions ==> e in declarations
    }

    /** getExtension(symbol): the declaring extension, or null. */
    function GetExtension(symbol: string): Option<string>
    {
      if symbol in extensionOf then Some(extensionOf[symbol]) else None
    }
  }

  /** The options of GLConfiguration that the emitter consults. */
  datatype GLConfiguration = GLConfiguration(
    extensionsRenamedIntoCore: seq<string>,
    glInfo: Option<GLInfo>,
    bufferObjectFunctions: set<string>,
    unimplemented: set<string>,
    allowNonGLExtensions: bool)

  /** A #define as the emitter reads it: name, aliases, and whether it is a member of an enum. */
  datatype ConstantDefinition = ConstantDefinition(
    name: string,
    aliasedNames: seq<string>,
    isEnum: bool,
    enumName: Option<string>)

  /** A C function declaration, of which the emitter reads only the name. */
  datatype FunctionSymbol = FunctionSymbol(name: string)

  /** The Java type of one argument of a MethodBinding, as far as the emitter cares. */
  datatype JavaArgType = NIOBuffer | PrimitiveArray | JavaLong | OtherJavaType(name: string)

  /**
   * A MethodBinding: the Java signature generated for a C function. Its identity
   * is the object reference, as in the IdentityHashMap of the source.
   */
  class MethodBinding {
    const name: string
    const args: seq<JavaArgType>

    constructor (name: string, args: seq<JavaArgType>)
      ensures this.name == name && this.args == args
    {
      this.name := name;
      this.args := args;
    }
  }

  /** signatureUsesJavaPrimitiveArrays */
  predicate UsesJavaPrimitiveArrays(args: seq<JavaArgType>)
  {
    exists i :: 0 <= i < |args| && args[i] == PrimitiveArray
  }

  /** Some argument is an NIO Buffer. */
  predicate HasNIOBuffer(args: seq<JavaArgType>)
  {
    exists i :: 0 <= i < |args| && args[i] == NIOBuffer
  }
}
