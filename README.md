# JOGL core model in Dafny

A model of three parts of JOGL and its GlueEmitter, with proofs of their properties:

- **The OpenGL emitter (`GLEmitter`)**, which generates the Java binding from the GL headers:
  - renaming whole extensions into the core namespace;
  - the extension unifier (`ExtensionUnifier`), which drops an extension's suffixed symbols when every one of them has a known core name;
  - buffer-object variants of method bindings, where NIO Buffer arguments become `long`;
  - the "Part of …" annotation of emitted constants;
  - the `getAddressFor` resolver that the emitter writes into every proc-address table.
- **`GLDrawableHelper`**, the listener and runnable bookkeeping behind every GL drawable:
  - the pending-initialization set;
  - the order of `init`, `reshape`, `display` and `dispose` calls;
  - the one-shot runnable queue;
  - the animator slot.
- **`FeatureRecord`**: the binary decoder of one record of the OpenType Feature List table, as defined in the "OpenType Layout Common Table Formats" chapter of the OpenType specification.

Modules:

| file | module | models |
|---|---|---|
| `wrappers.dfy` | `Wrappers` | `Option`, `Result` |
| `seq_util.dfy` | `SeqUtil` | set of elements, duplicate-freedom, order-preserving filter |
| `gl_collaborators.dfy` | `GLCollaborators` | the emitter's collaborators: the name rules of `GLExtensionNames`, the header information of `BuildStaticGLInfo`, the configuration, constants, function symbols, method bindings |
| `linked_map.dfy` | `LinkedMaps` | `LinkedHashMap` keyed by name: insertion order, first position kept, last value kept |
| `extension_unifier.dfy` | `ExtensionUnifier` | `GLEmitter.ExtensionUnifier` |
| `gl_emitter.dfy` | `GLEmitter` | the rest of `GLEmitter` |
| `proc_address_table.dfy` | `ProcAddressTable` | the generated `getAddressFor` |
| `gl_drawable_helper.dfy` | `GLDrawableHelper` | `GLDrawableHelper` |
| `feature_record.dfy` | `FeatureRecords` | `FeatureRecord` and the `DataInput` reads it makes |

How the model is built:

- State that the source updates in place is a Dafny `class` with `modifies` clauses:
  - the unifier's lists;
  - the emitter's rename table and buffer-object set;
  - the helper's listeners, pending set, queue, animator and auto-swap flag;
  - the input stream's position.
- Each method with a loop is proved equal to a specification function of its inputs. The properties the source promises are proved about those functions as lemmas.
- The helper records every call it makes, in order, in `calls`:
  - listener callbacks (init, reshape, display, dispose);
  - `glViewport`;
  - `GLRunnable.run`.
- The drawable's width and height are parameters.

Collaborators whose code is not part of this model are parameters:

- The name predicates and normalizers of `GLExtensionNames` are fields of `NameRules`, with arbitrary function values.
- The header information is the `GLInfo` value: extensions, their declarations, and the extension of each symbol.
- The base emitter's `expandMethodBinding` result is a parameter.
- So is its `needsProcAddressWrapper` answer.

## Model

| member | source | states |
|---|---|---|
| LinkedMaps.Put | src/java/com/sun/gluegen/opengl/GLEmitter.java:146 | a put keeps the map well formed (each key once in the order) and updates exactly that key's value; a key already present keeps its place in the order, a new key goes last |
| LinkedMaps.Remove | src/java/com/sun/gluegen/opengl/GLEmitter.java:215-217 | a remove keeps the map well formed and deletes exactly that key |
| LinkedMaps.BuildMapFirstPositions | src/java/com/sun/gluegen/opengl/GLEmitter.java:142-151 | after putting a list of records, each name appears once, ordered by its first occurrence in the list |
| LinkedMaps.BuildMapLastValue | src/java/com/sun/gluegen/opengl/GLEmitter.java:142-151 | after putting a list of records, each name maps to the last record of that name |
| LinkedMaps.PutAll | src/java/com/sun/gluegen/opengl/GLEmitter.java:144-151 | the put loop builds the map that the specification `BuildMap` describes |
| LinkedMaps.ShrunkBuildMapValues | src/java/com/sun/gluegen/opengl/GLEmitter.java:141-233 | the values of any map that only lost keys from the map built from a list of records: each name once, ordered by its first occurrence in the list, holding the last record of that name |
| LinkedMaps.ValuesInOrder | src/java/com/sun/gluegen/opengl/GLEmitter.java:226-233 | the rebuilt list is the map's values in key order |
| ExtensionUnifier.JudgeMeaning | src/java/com/sun/gluegen/opengl/GLEmitter.java:164-208 | an extension is unified iff every declaration is an extension name, is emitted in the map of its kind, and has a normalized name known to the header information; the reported cause is an emitted extension symbol whose core name is unknown |
| ExtensionUnifier.RemoveDeclsKeys | src/java/com/sun/gluegen/opengl/GLEmitter.java:211-219 | the removal loop removes exactly the extension's constants from the constant map and its functions from the function map |
| ExtensionUnifier.ApplyExtensionAllOrNothing | src/java/com/sun/gluegen/opengl/GLEmitter.java:161-219 | per extension, all or nothing: if all declarations pass, all of them leave their maps and nothing else does; otherwise neither map changes |
| ExtensionUnifier.UnifyMapsShrinks | src/java/com/sun/gluegen/opengl/GLEmitter.java:160-225 | across all extensions the maps only shrink; the survivors keep their values and their relative order |
| ExtensionUnifier.UnifyOrderPreserving | src/java/com/sun/gluegen/opengl/GLEmitter.java:136-234 | without header information the lists are unchanged; otherwise the result lists are the values of sub-maps of the maps built from the input lists |
| ExtensionUnifier.UnifyOutputLists | src/java/com/sun/gluegen/opengl/GLEmitter.java:136-234 | with header information, each constant and function name left in the output lists appears once, at the place where it first occurred in the input list, holding the last record of that name |
| ExtensionUnifier.ExtensionUnifier.CheckExtension | src/java/com/sun/gluegen/opengl/GLEmitter.java:163-208 | the scanning loop with its early exits computes the verdict `Judge` |
| ExtensionUnifier.ExtensionUnifier.RemoveDeclarations | src/java/com/sun/gluegen/opengl/GLEmitter.java:211-219 | the removal loop computes `RemoveDecls` |
| ExtensionUnifier.ExtensionUnifier.DoWork | src/java/com/sun/gluegen/opengl/GLEmitter.java:136-234 | doWork replaces the lists by `Unify` of the old lists |
| ExtensionUnifier.ExtensionUnifier.FilterSymbols | src/java/com/sun/gluegen/opengl/GLEmitter.java:121-126 | filterSymbols stores the lists and unifies them: afterwards getConstants and getFunctions return `Unify` of the given lists |
| ExtensionUnifier.ExtensionUnifier.GetConstants | src/java/com/sun/gluegen/opengl/GLEmitter.java:128-130 | the current constant list, which FilterSymbols's contract states through it |
| ExtensionUnifier.ExtensionUnifier.GetFunctions | src/java/com/sun/gluegen/opengl/GLEmitter.java:132-134 | the current function list, which FilterSymbols's contract states through it |
| GLEmitter.RenamePairsMeaning | src/java/com/sun/gluegen/opengl/GLEmitter.java:96-113 | the renamer's entries are exactly the declarations of the listed extensions that are GL functions or enumerations and change under normalization, each paired with its normalized name; an extension without declarations contributes none |
| GLEmitter.RenameTable | src/java/com/sun/gluegen/opengl/GLEmitter.java:80-115 | afterwards, each such declaration maps to its normalized name and every other entry of the rename table is as before |
| GLEmitter.RenameIdempotent | src/java/com/sun/gluegen/opengl/GLEmitter.java:80-115 | running the renamer twice gives the same table as running it once |
| GLEmitter.ApplyRenamesOverrides | src/java/com/sun/gluegen/opengl/GLEmitter.java:108-110 | adding the renames is overriding the old table by the new entries |
| GLEmitter.GLEmitter.RenameExtensionsIntoCore | src/java/com/sun/gluegen/opengl/GLEmitter.java:80-115 | fails iff there is no header information and some extension is listed; otherwise it adds exactly the specified entries |
| GLEmitter.GLEmitter.AddDeclarationRenames | src/java/com/sun/gluegen/opengl/GLEmitter.java:99-111 | the inner loop adds the entries of one extension's declarations |
| GLEmitter.BufferObjectArgs | src/java/com/sun/gluegen/opengl/GLEmitter.java:280-284 | the variant's arguments have the same count; each NIO Buffer position becomes long and every other position is unchanged |
| GLEmitter.BufferObjectArgsDiffer | src/java/com/sun/gluegen/opengl/GLEmitter.java:279-289 | the variant differs from its source iff the source has an NIO Buffer argument, and the variant has none left |
| GLEmitter.EligibleMeaning | src/java/com/sun/gluegen/opengl/GLEmitter.java:267-277 | exactly the base bindings without Java primitive arrays get a variant |
| GLEmitter.EligiblePrefix | src/java/com/sun/gluegen/opengl/GLEmitter.java:267-277 | the bindings made eligible by a prefix of the list are a prefix of those made eligible by the whole list, so scanning can stop at the first failure |
| GLEmitter.GLEmitter.ReplaceNIOBuffers | src/java/com/sun/gluegen/opengl/GLEmitter.java:279-286 | the argument loop computes the variant's arguments and whether any position was replaced |
| GLEmitter.GLEmitter.AddBufferObjectVariant | src/java/com/sun/gluegen/opengl/GLEmitter.java:279-294 | a variant exists iff the binding has an NIO Buffer argument; it is a new binding with the same name and the buffer-object arguments, and it is added to the identity set, which otherwise is unchanged, so isBufferObjectMethodBinding holds for it |
| GLEmitter.GLEmitter.CollectBufferObjectVariants | src/java/com/sun/gluegen/opengl/GLEmitter.java:267-295 | the loop succeeds iff every eligible binding has an NIO Buffer; it then yields one fresh variant per eligible binding, in order, and the identity set grows by exactly the variants made |
| GLEmitter.GLEmitter.ExpandMethodBinding | src/java/com/sun/gluegen/opengl/GLEmitter.java:255-298 | for a function that needs no buffer-object variant, the base bindings, unchanged. Otherwise: the base bindings, then one fresh variant per eligible binding, in order; each variant is registered in the identity set, so isBufferObjectMethodBinding holds for every variant returned, while the answer for the base bindings does not change; fails with the function's name iff an eligible binding has no NIO Buffer; a function that received variants needs a buffer-object variant and, when implemented, modified emitters whatever the proc-address answer |
| GLEmitter.GLEmitter.IsBufferObjectMethodBinding | src/java/com/sun/gluegen/opengl/GLEmitter.java:309-311 | true exactly for the bindings registered, by identity, in the buffer-object set; ExpandMethodBinding's contract states that every variant it returns is one |
| GLEmitter.GLEmitter.NeedsBufferObjectVariant | src/java/com/sun/gluegen/opengl/GLEmitter.java:410-412 | true iff the function is configured as a buffer-object function; ExpandMethodBinding's contract splits on it, adding variants only when it holds |
| GLEmitter.GLEmitter.NeedsModifiedEmitters | src/java/com/sun/gluegen/opengl/GLEmitter.java:300-307 | true iff the function is implemented and needs a proc-address wrapper or a buffer-object variant; ExpandMethodBinding's contract states that an implemented function that received variants gets modified emitters even without a wrapper |
| GLEmitter.AsWrittenTextWhenLastKnown | src/java/com/sun/gluegen/opengl/GLEmitter.java:357-388 | the as-written text equals the extensions joined by the separator whenever the last name looked up has an extension |
| GLEmitter.TrailingSeparatorExample | src/java/com/sun/gluegen/opengl/GLEmitter.java:377-386 | a concrete input for which the as-written text ends in a dangling separator |
| GLEmitter.GLEmitter.AddExtensionsOfSymbols2Buffer | src/java/com/sun/gluegen/opengl/GLEmitter.java:357-388 | fails iff there is no header information; otherwise returns the extensions of the first name and then of the aliases, joined by the separator, and their number |
| GLEmitter.GLEmitter.EmitDefine | src/java/com/sun/gluegen/opengl/GLEmitter.java:313-354 | fails iff there is no header information. The constant is dropped iff no name has an extension, it is not an enum, and non-GL extensions are disallowed. Otherwise it is emitted with "Part of <code>…</code>" naming the extensions, the enum name, "CORE ENUM" or "CORE DEF", plus the optional comment |
| ProcAddressTable.FirstPresent | src/java/com/sun/gluegen/opengl/GLEmitter.java:440-445 | a found permutation index is below the permutation number and names an existing field |
| ProcAddressTable.ResolveMeaning | src/java/com/sun/gluegen/opengl/GLEmitter.java:435-462 | an address is found iff some permutation below the permutation number of the normalized name is an existing field; the address is that of the first such permutation; a failure carries the normalized and the user's name |
| ProcAddressTable.ProcAddressTable.GetAddressFor | src/java/com/sun/gluegen/opengl/GLEmitter.java:435-462 | the generated loop with its early stop computes `Resolve` |
| GLDrawableHelper.Insert | src/jogl/classes/jogamp/opengl/GLDrawableHelper.java:106 | insertion at an index: the elements before it are unchanged, the new element is at the index, the rest are shifted by one, and one occurrence of the listener is added |
| GLDrawableHelper.RemoveFirstCount | src/jogl/classes/jogamp/opengl/GLDrawableHelper.java:112 | removal of a listener takes away exactly one occurrence, if there is one |
| GLDrawableHelper.RemoveFirstShape | src/jogl/classes/jogamp/opengl/GLDrawableHelper.java:112 | only the first occurrence goes; everything before and after it keeps its order |
| GLDrawableHelper.RemoveFirstAbsent | src/jogl/classes/jogamp/opengl/GLDrawableHelper.java:112 | removing an absent listener changes nothing |
| GLDrawableHelper.RemoveFirstElems | src/jogl/classes/jogamp/opengl/GLDrawableHelper.java:110-115 | after removing one occurrence, every other listed listener is still listed, so the pending set stays within the list |
| GLDrawableHelper.DisplayPassOrder | src/jogl/classes/jogamp/opengl/GLDrawableHelper.java:158-169 | display calls every listener's display in list order, once per occurrence |
| GLDrawableHelper.DisplayPassInits | src/jogl/classes/jogamp/opengl/GLDrawableHelper.java:130-169 | display initializes exactly the listed listeners that were pending, each once, even when listed twice |
| GLDrawableHelper.DisplayPassShape | src/jogl/classes/jogamp/opengl/GLDrawableHelper.java:130-177 | every init during display is immediately followed by glViewport(0,0,w,h), that listener's reshape to (0,0,w,h), and its display |
| GLDrawableHelper.DisplayPassInitFirst | src/jogl/classes/jogamp/opengl/GLDrawableHelper.java:158-169 | a listener pending when display starts has an init call before each of its display calls, in particular before the first, even when it is listed twice |
| GLDrawableHelper.DisplayPassPending | src/jogl/classes/jogamp/opengl/GLDrawableHelper.java:130-169 | after display no listed listener is pending |
| GLDrawableHelper.ReshapeEvents | src/jogl/classes/jogamp/opengl/GLDrawableHelper.java:171-185 | a broadcast reshape sets the viewport once, before the first listener, and reshapes every listener in list order with the same rectangle |
| GLDrawableHelper.InitEvents | src/jogl/classes/jogamp/opengl/GLDrawableHelper.java:141-156 | init calls every listed listener's init, in order |
| GLDrawableHelper.RunEvents | src/jogl/classes/jogamp/opengl/GLDrawableHelper.java:187-203 | the queued runnables run once each, in FIFO order |
| GLDrawableHelper.AddAtAsWrittenBreaksPending | src/jogl/classes/jogamp/opengl/GLDrawableHelper.java:98-108 | a concrete input for which the as-written insertion leaves a pending listener that is not listed |
| GLDrawableHelper.GLDrawableHelper.constructor | src/jogl/classes/jogamp/opengl/GLDrawableHelper.java:60-74 | a new helper has no listeners, nothing pending, an empty queue, no animator, and auto-swap on |
| GLDrawableHelper.GLDrawableHelper.Reset | src/jogl/classes/jogamp/opengl/GLDrawableHelper.java:64-74 | reset leaves no listeners, nothing pending, an empty queue, no animator, and auto-swap on |
| GLDrawableHelper.GLDrawableHelper.AddGLEventListener | src/jogl/classes/jogamp/opengl/GLDrawableHelper.java:94-96 | appends the listener and marks it pending; pending stays within the list |
| GLDrawableHelper.GLDrawableHelper.AddGLEventListenerAt | src/jogl/classes/jogamp/opengl/GLDrawableHelper.java:98-108 | a negative index appends and an index up to the size inserts there, marking the listener pending; a larger index fails with no change |
| GLDrawableHelper.GLDrawableHelper.RemoveGLEventListener | src/jogl/classes/jogamp/opengl/GLDrawableHelper.java:110-115 | removes the first occurrence and the pending mark; pending stays within the list |
| GLDrawableHelper.GLDrawableHelper.Dispose | src/jogl/classes/jogamp/opengl/GLDrawableHelper.java:122-128 | every listed listener's dispose, in order |
| GLDrawableHelper.GLDrawableHelper.InitListener | src/jogl/classes/jogamp/opengl/GLDrawableHelper.java:130-139 | a pending listener gets init (and, when asked, the viewport and its full-size reshape) and stops being pending; the result says whether it was pending |
| GLDrawableHelper.GLDrawableHelper.Init | src/jogl/classes/jogamp/opengl/GLDrawableHelper.java:141-156 | every listed listener is initialized again, in order; nothing stays pending, so the "already initialized" failure cannot occur |
| GLDrawableHelper.GLDrawableHelper.Display | src/jogl/classes/jogamp/opengl/GLDrawableHelper.java:158-169 | the calls are those of `DisplayPass` followed by the queued runnables; nothing stays pending and the queue is empty |
| GLDrawableHelper.GLDrawableHelper.ReshapeListener | src/jogl/classes/jogamp/opengl/GLDrawableHelper.java:171-177 | the viewport when asked, then the listener's reshape |
| GLDrawableHelper.GLDrawableHelper.Reshape | src/jogl/classes/jogamp/opengl/GLDrawableHelper.java:179-185 | the calls are `ReshapeEvents` |
| GLDrawableHelper.GLDrawableHelper.ExecGLRunnables | src/jogl/classes/jogamp/opengl/GLDrawableHelper.java:187-203 | the queue is emptied and its runnables run in order |
| GLDrawableHelper.GLDrawableHelper.EnqueueGLRunnable | src/jogl/classes/jogamp/opengl/GLDrawableHelper.java:242-245 | the runnable joins the end of the queue |
| GLDrawableHelper.GLDrawableHelper.SetAnimator | src/jogl/classes/jogamp/opengl/GLDrawableHelper.java:205-212 | fails, with no change, iff a different animator is to be registered while one is registered; otherwise the slot takes the argument, and None unregisters |
| GLDrawableHelper.GLDrawableHelper.GetAnimator | src/jogl/classes/jogamp/opengl/GLDrawableHelper.java:214-218 | the registered animator, None when there is none; SetAnimator's contract is stated through it |
| GLDrawableHelper.GLDrawableHelper.SetAutoSwapBufferMode | src/jogl/classes/jogamp/opengl/GLDrawableHelper.java:265-267 | afterwards getAutoSwapBufferMode returns the argument |
| GLDrawableHelper.GLDrawableHelper.GetAutoSwapBufferMode | src/jogl/classes/jogamp/opengl/GLDrawableHelper.java:269-271 | the mode last set |
| FeatureRecords.Int32FromBytes | src/jogl/classes/jogamp/graph/font/typecast/ot/table/FeatureRecord.java:68 | readInt gives a signed 32-bit value congruent, modulo 2^32, to the big-endian value of the four bytes |
| FeatureRecords.UInt16FromBytes | src/jogl/classes/jogamp/graph/font/typecast/ot/table/FeatureRecord.java:69 | readUnsignedShort gives a value in 0..65535 |
| FeatureRecords.Decode | src/jogl/classes/jogamp/graph/font/typecast/ot/table/FeatureRecord.java:67-70 | a record exists iff six bytes are available; its tag is a 32-bit signed value and its offset lies in 0..65535 |
| FeatureRecords.TagAsString | src/jogl/classes/jogamp/graph/font/typecast/ot/table/FeatureRecord.java:80-87 | exactly four characters, each with a code in 0..255, the tag's bytes from most to least significant |
| FeatureRecords.TagBytesRecombine | src/jogl/classes/jogamp/graph/font/typecast/ot/table/FeatureRecord.java:80-87 | recombining the four tag characters big-endian gives the tag modulo 2^32 |
| FeatureRecords.Int32OfTagBytes | src/jogl/classes/jogamp/graph/font/typecast/ot/table/FeatureRecord.java:68-87 | reading back the four big-endian bytes of a 32-bit signed tag gives that tag |
| FeatureRecords.TagBytesOfInt32 | src/jogl/classes/jogamp/graph/font/typecast/ot/table/FeatureRecord.java:68-87 | the bytes of the signed value read from four bytes are those four bytes |
| FeatureRecords.DecodeEncode | src/jogl/classes/jogamp/graph/font/typecast/ot/table/FeatureRecord.java:67-70 | decoding the six bytes of a tag and an offset gives back that tag and offset |
| FeatureRecords.EncodeDecode | src/jogl/classes/jogamp/graph/font/typecast/ot/table/FeatureRecord.java:67-70 | re-encoding a decoded record gives back the six bytes consumed |
| FeatureRecords.TagAsStringOfBytes | src/jogl/classes/jogamp/graph/font/typecast/ot/table/FeatureRecord.java:68-87 | the tag string's character codes are exactly the four tag bytes read |
| FeatureRecords.DataInput.ReadInt | src/jogl/classes/jogamp/graph/font/typecast/ot/table/FeatureRecord.java:68 | with four bytes left, their signed value, and four bytes consumed; otherwise a failure that consumes the rest |
| FeatureRecords.DataInput.ReadUnsignedShort | src/jogl/classes/jogamp/graph/font/typecast/ot/table/FeatureRecord.java:69 | with two bytes left, their unsigned value, and two bytes consumed; otherwise a failure that consumes the rest |
| FeatureRecords.FeatureRecord.Read | src/jogl/classes/jogamp/graph/font/typecast/ot/table/FeatureRecord.java:67-70 | a record iff six bytes remain; it holds the tag and offset they decode to, within their 32-bit signed and 16-bit unsigned ranges, and exactly six bytes are consumed |
| FeatureRecords.FeatureRecord.GetTag | src/jogl/classes/jogamp/graph/font/typecast/ot/table/FeatureRecord.java:72-74 | the tag read, a signed 32-bit value |
| FeatureRecords.FeatureRecord.GetOffset | src/jogl/classes/jogamp/graph/font/typecast/ot/table/FeatureRecord.java:76-78 | the offset read, in 0..65535 |
| FeatureRecords.FeatureRecord.GetTagAsString | src/jogl/classes/jogamp/graph/font/typecast/ot/table/FeatureRecord.java:80-87 | four characters whose codes are the tag's bytes, most significant first |

## Left out

- `beginEmission`, `unifyExtensions`, `createConfig`, `generateModifiedEmitters` and `getGLConfig`: these only wire the emitter to its base class and its emitters. The base class is not part of this model.
- The PrintWriter output of `endProcAddressTable`: only the lookup logic of the generated `getAddressFor` is modelled. Reflection over the table's fields is a map from field name to address.
- ProcAddressTable.ProcAddressTable.GetAddressFor: the second failure, where `getLong` throws on a found field, is not modelled. An existing field always yields its address.
- ProcAddressTable.ProcAddressTable.GetAddressFor: the `ProcAddressHelper.PROCADDRESS_VAR_PREFIX` constant is not part of this model, so the prefix is a field of the table.
- The bodies of `GLExtensionNames`, `BuildStaticGLInfo`, `GLConfiguration`, `MethodBinding.replaceJavaArgumentType` and the base `ProcAddressEmitter` are not part of this model. They are parameters, as described above.
- The `System.err` diagnostics of the unifier and of `emitDefine`: output only.
- ExtensionUnifier.Unify: requires every extension of the header information to have declarations. The source dereferences `getDeclarations(extension)` there without a check.
- GLEmitter.GLEmitter.RenameExtensionsIntoCore: the configured extension set is iterated as a sequence. The entries are a function of the declaration, so the order does not change the resulting table.
- GLEmitter.GLEmitter.AddExtensionsOfSymbols2Buffer: models the corrected separator placement. The as-written text is `GLEmitter.AsWrittenText` (see Findings).
- GLEmitter.GLEmitter.EmitDefine: models the base emitter's `emitDefine` as returning the constant with its comment. It uses the corrected extension text.
- GLDrawableHelper.GLDrawableHelper.AddGLEventListenerAt: models the corrected behaviour, where an index beyond the end changes nothing. The as-written behaviour is `GLDrawableHelper.AddAtAsWritten` (see Findings).
- GLDrawableHelper.GLDrawableHelper.EnqueueGLRunnable: models only the queueing step of `invoke`. The rest of `invoke` (immediate display, waiting on a lock for another thread) is concurrency and is left out.
- `invokeGL`, `isExternalAnimatorRunning`, `isExternalAnimatorAnimating`: context make-current/release, thread-local state and thread identity. Native context handling and concurrency are left out.
- `toString`: diagnostics only.
- The locks of `GLDrawableHelper`: the model is single-threaded.
- A listener that adds or removes listeners from inside its own callback is not modelled.
- Listener, runnable and animator objects are numbers. Their callbacks are the events recorded in `calls`.
- FeatureRecords.FeatureRecord.constructor: the source has only the stream constructor. The value constructor that Read calls requires the ranges that readInt and readUnsignedShort guarantee.
- FeatureRecords.FeatureRecord.Read: the stream constructor becomes a factory that returns no record at end of input, where the source throws an `IOException`.
- FeatureRecords.DataInput.ReadInt: models a stream whose only failure is end of input. Other I/O errors of a real `DataInput` are left out.

## Findings

| source | as written | input that shows it | evidently intended | confidence | as-written member | corrected member |
|---|---|---|---|---|---|---|
| src/java/com/sun/gluegen/opengl/GLEmitter.java:367-386 | after each extension found, the separator is appended whenever any name at all follows, even a name without an extension | first name `GL_FOO` with extension `GL_VERSION_1_2`, one alias `GL_FOO_ALIAS` without an extension, separator ", ": the text is "GL_VERSION_1_2, ", so `emitDefine` writes "Part of <code>GL_VERSION_1_2, </code>" | separators only between the extensions found | medium; not executed | GLEmitter.AsWrittenText, GLEmitter.TrailingSeparatorExample | GLEmitter.GLEmitter.AddExtensionsOfSymbols2Buffer |
| src/jogl/classes/jogamp/opengl/GLDrawableHelper.java:98-108 | the listener is added to the pending-init set before `ArrayList.add(index, …)`, which throws for an index beyond the end, so the listener stays pending without being listed | empty helper, `addGLEventListener(1, l)`: it throws, and afterwards the pending set is {l} while the list is empty | the pending set only ever holds listed listeners | low; not executed | GLDrawableHelper.AddAtAsWritten, GLDrawableHelper.AddAtAsWrittenBreaksPending | GLDrawableHelper.GLDrawableHelper.AddGLEventListenerAt |
