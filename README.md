# flow_native lowering, modelled in Dafny

`flow_native` is the code-generation back end of Juno, an ahead-of-time
compiler for a small subset of JavaScript. Its `Compiler` takes a module
that has already been parsed and resolved, walks it, and writes C++ source
that runs against the `FNRuntime` value model. That value model consists of:

- tagged `FNValue`s;
- `FNObject` and `FNArray` containers;
- `FNClosure`s that pair a code pointer with a captured environment;
- a global object.

The generated program has one C++ record per lexical scope. For each
scope it:

- forward-declares and defines the record, with one slot per declaration owned by the scope and a `parent` link;
- allocates a fresh record wherever the scope is entered;
- reads a variable by following `parent->` links, one per level between the use's scope and the declaration's scope.

The model is built in these modules:

- **`FlowNative.Compiler`**: a class holding the resolver's tables (`sem`), the text written so far (`out`) and the `ValueId` counter (`numValues`).
  - Every `gen_*` function of the original is a method with the same recursion and the same loops.
  - Each method is proved to append exactly the text given by a function of module `Lowering`, or to stop with exactly that function's `Failure`.
- **`Results`**: failures. Every `panic!`, `unwrap`, `node_cast!`, `todo!` and `unimplemented!` of the core is one constructor of `Results.Failure`.
- **`Sema`**: the resolver's output (scopes, declarations, node scopes, identifier resolutions).
- **`Ast`**: the node kinds. `Ast.Node` is a single datatype, as `ast::Node` is in the original, so `gen_expr` given a statement fails, and so does `gen_stmt` given an expression.
- **`Lowering`**: the text functions.
- **What the text means**: the functions of `Lowering` have partners.
  - `Decode` holds meaning-level readers for the text, with round-trip lemmas. They read the scope records, the parameter lists, the slot paths of identifiers and the scope entries.
  - `Sema` holds the scope chain, `Chain`, and the `parent` walk, `Up`.
  - `Propagation` holds the error-propagation lemmas.
  - `LoweringProperties` holds the properties of each statement and expression rule.

On these points the lowering behaves as follows:

- Among the equality operators, only `==`, `===` and `!==` are supported; loose `!=` fails as an unsupported operator.
- The bitwise operators `|`, `^`, `&` and the unsigned shift `>>>` also fail as unsupported. The code accepts only comparisons, the two signed shifts and `+ - * / %`.
- The declarators of one `var` statement are written one after the other, with no separator between them.
- Statements in a block are written with no separator. Only the module body, a function body and a catch body put `;` (or `;\n`) after each statement.
- The `init` of a `for` is lowered by `gen_stmt`. An expression there, as in `for (i = 0; ...)`, therefore fails as an unimplemented statement. A `var` there is accepted.
- A `try` with both a `catch` and a `finally` lowers the `catch` and silently drops the `finally` block (the match at line 472 ignores the finalizer). Only a `try` with no `catch` fails.

## Model

All source cells refer to `unsupported/juno/crates/flow_native/src/main.rs`.

| member | source | states |
|---|---|---|
| FlowNative.Compile | unsupported/juno/crates/flow_native/src/main.rs:66-75 | A fresh compiler run on a module yields exactly the program text of `Lowering.ProgramText`, or its failure. |
| FlowNative.Compiler.constructor | unsupported/juno/crates/flow_native/src/main.rs:69-73 | A new compiler has the given tables, empty output and zero values created. |
| FlowNative.Compiler.Out | unsupported/juno/crates/flow_native/src/main.rs:37-43 | `out!` appends its fragment to the output and changes nothing else. |
| FlowNative.Compiler.NewValue | unsupported/juno/crates/flow_native/src/main.rs:78-82 | Returns the id numbered by the old counter and raises the counter by one, so each id is handed out once. |
| FlowNative.ValueNamesDistinct | unsupported/juno/crates/flow_native/src/main.rs:50-55 | Distinct `ValueId`s print as distinct temporaries `t{n}`. |
| FlowNative.Compiler.GenProgram | unsupported/juno/crates/flow_native/src/main.rs:84-97 | Appends the include, the context, `int main(){`, the root record and each top-level statement followed by `;`, then `return 0;`. Fails (leaving what was written) on a missing module scope, a non-module node or the first failing statement. |
| FlowNative.Compiler.GenContext | unsupported/juno/crates/flow_native/src/main.rs:99-115 | Appends exactly the context text: all forward declarations, then all definitions. |
| FlowNative.Compiler.GenForwardDecls | unsupported/juno/crates/flow_native/src/main.rs:101-103 | The first loop appends one `struct Scope{i};` line per scope id, in order. |
| FlowNative.Compiler.GenScopeDefs | unsupported/juno/crates/flow_native/src/main.rs:105-114 | The second loop appends one definition per scope, in id order. |
| FlowNative.Compiler.GenScopeDef | unsupported/juno/crates/flow_native/src/main.rs:106-113 | One definition: the parent field when the scope has a parent, then one slot per owned declaration initialised to undefined. |
| Decode.ContextRoundTrip | unsupported/juno/crates/flow_native/src/main.rs:99-115 | Read back, the context declares records `0 .. N-1` in order, then defines every scope once, in id order, with its own parent and its own slots in declaration order. The text after it is untouched. |
| Decode.ForwardsRoundTrip | unsupported/juno/crates/flow_native/src/main.rs:101-103 | The forward declarations for `lo .. hi` read back as exactly those ids, in order. |
| Decode.DefsRoundTrip | unsupported/juno/crates/flow_native/src/main.rs:105-114 | The definitions read back as one record per scope of the range, in order. |
| Decode.DefRoundTrip | unsupported/juno/crates/flow_native/src/main.rs:106-113 | One definition reads back as its id, its parent and its declarations. |
| Decode.ParentRoundTrip | unsupported/juno/crates/flow_native/src/main.rs:107-109 | The parent field is present exactly when the scope has a parent, and names that parent. |
| Decode.SlotsRoundTrip | unsupported/juno/crates/flow_native/src/main.rs:110-112 | The slot lines read back as exactly the scope's declarations, in order. |
| Decode.DefIsNoForward | unsupported/juno/crates/flow_native/src/main.rs:101-106 | A definition is never mistaken for a forward declaration, so the two loops' outputs do not run together. |
| FlowNative.Compiler.ParamListForArgCount | unsupported/juno/crates/flow_native/src/main.rs:117-122 | Appends exactly `ParamList(count)`. |
| Decode.ParamListRoundTrip | unsupported/juno/crates/flow_native/src/main.rs:117-122 | The list reads back as the environment pointer followed by the parameters `param0 .. param{n-1}`, in order. |
| Decode.ParamsRoundTrip | unsupported/juno/crates/flow_native/src/main.rs:119-121 | The loop's declarations for `lo .. hi` read back as exactly those indices. |
| Decode.ParamListInjective | unsupported/juno/crates/flow_native/src/main.rs:117-122 | Two parameter lists are the same text exactly when they are for the same count. |
| FlowNative.Compiler.InitScope | unsupported/juno/crates/flow_native/src/main.rs:124-137 | Returns the node's own scope and appends its entry when it has one; otherwise appends nothing and returns the current scope. |
| LoweringProperties.ScopeInitEnters | unsupported/juno/crates/flow_native/src/main.rs:124-137 | With a scope, the text reads back as "allocate the node's record and link it to the current scope's record" and continues in the node's scope. Without one, the text is empty and the scope unchanged. |
| Decode.ScopeEntryRoundTrip | unsupported/juno/crates/flow_native/src/main.rs:131-132 | A scope entry reads back as the record it allocates and the record it links it to. |
| Decode.RecordAllocRoundTrip | unsupported/juno/crates/flow_native/src/main.rs:131 | The allocation line reads back as the scope it allocates. |
| Decode.ParentLinkRoundTrip | unsupported/juno/crates/flow_native/src/main.rs:132 | The link line reads back as the child record and the parent record. |
| FlowNative.Compiler.GenMemberProp | unsupported/juno/crates/flow_native/src/main.rs:139-155 | A computed key appends `->getByVal(`, the key expression and `)`; a named key appends `->props["name"]`. A non-identifier named key fails as an unexpected node. |
| LoweringProperties.MemberPropKeys | unsupported/juno/crates/flow_native/src/main.rs:147-154 | A named key lowers to the `props` entry of its own name, and the text reads back as that name. A computed key lowers exactly when its expression does, to `->getByVal(`, the expression and `)`. |
| Decode.NamedPropRoundTrip | unsupported/juno/crates/flow_native/src/main.rs:153 | `->props["name"]` reads back as `name` and leaves the text after it untouched, for any name without a double quote. |
| LoweringProperties.MemberPropRejectsNonIdentifier | unsupported/juno/crates/flow_native/src/main.rs:151-153 | A non-computed key that is not an identifier fails as an unexpected node. |
| FlowNative.Compiler.GenFunctionExp | unsupported/juno/crates/flow_native/src/main.rs:157-191 | Appends the closure exactly as `FunctionExpText` gives it. Fails with a missing scope when the body has none, or with the first failing formal or statement. |
| FlowNative.Compiler.GenClosureHead | unsupported/juno/crates/flow_native/src/main.rs:165-170 | Appends the closure constructor and the signature for `count` parameters. |
| FlowNative.Compiler.GenClosureEnv | unsupported/juno/crates/flow_native/src/main.rs:172-180 | Appends the environment rebinding and the entry of the function's scope. |
| FlowNative.Compiler.GenFunctionCode | unsupported/juno/crates/flow_native/src/main.rs:181-189 | Appends the parameter copies, then each body statement followed by `;` and a line break. |
| FlowNative.Compiler.GenFormals | unsupported/juno/crates/flow_native/src/main.rs:181-184 | Appends each formal, lowered in the function's scope, followed by `=param{i};`, in order. Stops at the first failing formal. |
| LoweringProperties.ClosureSignature | unsupported/juno/crates/flow_native/src/main.rs:165-170 | A lowered closure starts with the constructor, and its code's signature reads back as exactly `param0 .. param{n-1}` for its `n` formals. |
| LoweringProperties.ClosureTextSignature | unsupported/juno/crates/flow_native/src/main.rs:165-170 | The same, stated on the closure's pieces for any count. |
| LoweringProperties.ClosureEnvironment | unsupported/juno/crates/flow_native/src/main.rs:171-190 | After the signature, the closure rebinds `parent_scope` as the defining scope's record. It then enters the body's scope with the defining scope as parent, and ends by capturing the defining scope's record. |
| LoweringProperties.ClosureTextEnvironment | unsupported/juno/crates/flow_native/src/main.rs:172-190 | The same, stated on the closure's pieces. |
| LoweringProperties.FormalInFunctionScope | unsupported/juno/crates/flow_native/src/main.rs:181-183 | A formal owned by the function's scope is stored into that scope's record with no `parent->` hop. |
| LoweringProperties.FormalsCopyParams | unsupported/juno/crates/flow_native/src/main.rs:181-184 | When every formal is an ordinary declaration of the function's scope, the copies store `param0`, `param1`, ... into the slots of the first, second, ... formal, in order. Each copy goes into the function's own record with no `parent->` hop. |
| LoweringProperties.ParamCopiesReadBack | unsupported/juno/crates/flow_native/src/main.rs:182-183 | The `i`-th copy reads back as the function's record, the `i`-th formal's slot and the argument number `i`. |
| Decode.ParamCopyRoundTrip | unsupported/juno/crates/flow_native/src/main.rs:182-183 | One copy `scope{f}->var{d}=param{i};` reads back as `f`, `d` and `i`. |
| LoweringProperties.ClosureCopiesFormals | unsupported/juno/crates/flow_native/src/main.rs:165-184 | In a lowered closure, the entry of the function's scope is followed at once by the copies of `param0 .. param{n-1}` into the formals' slots, in order. |
| LoweringProperties.FunctionNeedsScope | unsupported/juno/crates/flow_native/src/main.rs:171 | A function whose body has no scope fails with a missing scope. |
| FlowNative.Compiler.GenExpr | unsupported/juno/crates/flow_native/src/main.rs:193-359 | Appends exactly `ExprText` for every node kind, or fails as it does (an unimplemented expression for any other kind). |
| FlowNative.Compiler.GenObject | unsupported/juno/crates/flow_native/src/main.rs:204-220 | Appends the allocation of `tmp`, one assignment per property in order, then the re-encoding. |
| FlowNative.Compiler.GenProperties | unsupported/juno/crates/flow_native/src/main.rs:206-218 | The property loop appends each initialiser in order and stops at the first failure. |
| FlowNative.Compiler.GenProperty | unsupported/juno/crates/flow_native/src/main.rs:207-217 | One property: `tmp`, its key, `=`, its value and `;`. An entry that is not a `Property` fails as an unexpected node. |
| LoweringProperties.ObjectRejectsNonProperty | unsupported/juno/crates/flow_native/src/main.rs:207-212 | An object literal whose first failing entry is not a `Property` fails as an unexpected node. |
| FlowNative.Compiler.GenArray | unsupported/juno/crates/flow_native/src/main.rs:221-228 | Appends the array construction with each element followed by `,`, in order. |
| FlowNative.Compiler.GenExprs | unsupported/juno/crates/flow_native/src/main.rs:223-226 | A list loop appends `pre`, the element and `post` for each element in order, and stops at the first failure. |
| FlowNative.Compiler.GenMember | unsupported/juno/crates/flow_native/src/main.rs:229-238 | Appends the object, `.getObject()` and the property access. |
| FlowNative.Compiler.GenCall | unsupported/juno/crates/flow_native/src/main.rs:239-253 | Appends the closure unwrapping of the callee, the cast for the argument count, the environment and each argument after `, `. |
| FlowNative.Compiler.GenCallCast | unsupported/juno/crates/flow_native/src/main.rs:244-247 | Appends the cast of the closure's code for `count` arguments. |
| LoweringProperties.CallSiteSignature | unsupported/juno/crates/flow_native/src/main.rs:242-252 | At a call site, the cast's parameter list reads back as exactly `param0 .. param{count-1}`, followed by the invocation with `tmp->env` and then the arguments. |
| FlowNative.Compiler.GenIdentifier | unsupported/juno/crates/flow_native/src/main.rs:254-275 | Appends the global-object property or the slot path. Fails when the identifier is unresolved, when a table lookup is out of range, or when the unsigned depth difference underflows. |
| LoweringProperties.LocalIdentifierReachesOwner | unsupported/juno/crates/flow_native/src/main.rs:265-273 | A local declared in the current scope or an enclosing one lowers successfully. Its path starts at `scope{s}` and makes `hops` `parent->` steps that lead exactly to the declaring scope, then reads that declaration's slot. |
| Sema.HopsReachOwner | unsupported/juno/crates/flow_native/src/main.rs:266-271 | If the owner is on the scope chain, its depth is at most the current depth, and depth(S) - depth(D) parent links from S reach exactly D. |
| Sema.UpFollowsChain | unsupported/juno/crates/flow_native/src/main.rs:269-271 | `k` parent links from a scope reach the `k`-th scope of its chain, and fail beyond the root. |
| Sema.Chain | unsupported/juno/crates/flow_native/src/main.rs:266-267 | The chain of a scope has one scope per depth, from its own down to 0, each the parent of the one before, and ends at a root. |
| LoweringProperties.GlobalIdentifierIsProperty | unsupported/juno/crates/flow_native/src/main.rs:261-264 | A global or undeclared global lowers to `global()` plus its named property. The text is the same in every scope and is never a slot path. |
| Decode.SlotPathRoundTrip | unsupported/juno/crates/flow_native/src/main.rs:268-272 | A slot path reads back as its start scope, its hop count and its declaration. |
| Decode.GlobalIsNoSlot | unsupported/juno/crates/flow_native/src/main.rs:262-263 | A global-object access never reads as a slot path. |
| LoweringProperties.UnresolvedIdentifier | unsupported/juno/crates/flow_native/src/main.rs:255-258 | An identifier fails as unresolved exactly when it has no resolution to a declaration. |
| LoweringProperties.UnderflowMeansOutsideChain | unsupported/juno/crates/flow_native/src/main.rs:266-267 | The depth subtraction can underflow only when the declaration's scope is outside the use's scope chain. |
| FlowNative.Compiler.GenAssign | unsupported/juno/crates/flow_native/src/main.rs:276-295 | Appends the left side, the suffix, the operator, the right side and the suffix again. An unsupported operator fails before either side is lowered. |
| LoweringProperties.AssignmentOperatorSupport | unsupported/juno/crates/flow_native/src/main.rs:282-290 | Exactly `=`, `+=`, `-=`, `%=`, `/=` and `*=` are supported. Plain `=` has no suffix; the five compound operators use `.getNumberRef()`. |
| LoweringProperties.UnsupportedAssignmentFirst | unsupported/juno/crates/flow_native/src/main.rs:289 | Any other assignment operator fails as an unsupported assignment, whatever its operands. |
| FlowNative.Compiler.GenBinary | unsupported/juno/crates/flow_native/src/main.rs:296-329 | Appends `encode{type}(`, the left operand's number, the C++ operator, the right operand's number and `)`. An unsupported operator fails before either operand is lowered. |
| LoweringProperties.BinaryOperatorSupport | unsupported/juno/crates/flow_native/src/main.rs:307-323 | The seven comparisons encode `Bool`, the two shifts and five arithmetic operators encode `Number`, and exactly the other eight operators are rejected. Each is an if-and-only-if. |
| LoweringProperties.BinaryOperatorSpelling | unsupported/juno/crates/flow_native/src/main.rs:302-306 | `===` and `!==` become `==` and `!=`. Every other operator keeps its JavaScript spelling, and every supported one is a C++ operator on numbers. |
| LoweringProperties.UnsupportedOperatorFirst | unsupported/juno/crates/flow_native/src/main.rs:322 | An unsupported binary operator fails as unsupported, whatever its operands. |
| FlowNative.Compiler.GenUpdate | unsupported/juno/crates/flow_native/src/main.rs:330-346 | Appends the update with the operator before or after the operand's number reference. |
| LoweringProperties.UpdatePlacement | unsupported/juno/crates/flow_native/src/main.rs:336-345 | A prefix update puts its operator right after `encodeNumber(`. The text ends with the operator and `)` exactly when the update is postfix. |
| LoweringProperties.ExpressionKinds | unsupported/juno/crates/flow_native/src/main.rs:347-357 | A kind `gen_expr` does not list fails as an unimplemented expression; the three literal kinds never fail. |
| FlowNative.Compiler.GenStmt | unsupported/juno/crates/flow_native/src/main.rs:361-500 | Appends exactly `StmtText` for every node kind, or fails as it does (an unimplemented statement for any other kind). |
| LoweringProperties.StatementKinds | unsupported/juno/crates/flow_native/src/main.rs:498 | A kind `gen_stmt` does not list fails as an unimplemented statement; that includes every expression kind. |
| FlowNative.Compiler.GenStmts | unsupported/juno/crates/flow_native/src/main.rs:372-374 | A statement loop appends each statement followed by the separator, in order, and stops at the first failure. |
| FlowNative.Compiler.GenBlock | unsupported/juno/crates/flow_native/src/main.rs:369-376 | Appends `{` and a line break, the block's scope entry, its statements in the inner scope, and `}` with a line break. |
| LoweringProperties.BlockEntersScope | unsupported/juno/crates/flow_native/src/main.rs:369-376 | A block's text opens with `{` and a line break. Right after that it enters the block's scope, with the enclosing scope as parent, and it closes with `}` and a line break. |
| FlowNative.Compiler.GenDeclarator | unsupported/juno/crates/flow_native/src/main.rs:382-392 | With an initialiser, appends the identifier, `=` and the initialiser; without one, appends nothing. |
| FlowNative.Compiler.GenFunctionDecl | unsupported/juno/crates/flow_native/src/main.rs:393-406 | Appends `(`, then the name and `=` when there is one, then the closure and `)`. |
| FlowNative.Compiler.GenReturn | unsupported/juno/crates/flow_native/src/main.rs:408-415 | Appends `return `, then the argument or the undefined value, then `;`. |
| LoweringProperties.BareReturn | unsupported/juno/crates/flow_native/src/main.rs:408-415 | A bare `return` lowers to returning `FNValue::encodeUndefined()`, whatever the tables and the scope. |
| LoweringProperties.ReturnWithArgument | unsupported/juno/crates/flow_native/src/main.rs:408-415 | A `return` with an argument lowers exactly when the argument does, to `return`, the argument and `;`. |
| FlowNative.Compiler.GenExprStmt | unsupported/juno/crates/flow_native/src/main.rs:416-421 | Appends the expression and `;`. |
| FlowNative.Compiler.GenWhile | unsupported/juno/crates/flow_native/src/main.rs:422-428 | Appends `while(`, the test's boolean, the braced body and the closing brace. |
| FlowNative.Compiler.GenFor | unsupported/juno/crates/flow_native/src/main.rs:429-455 | Appends `{`, the loop scope's entry, then `for(` with init, test and update lowered in the inner scope, then the body. |
| FlowNative.Compiler.GenOptStmt | unsupported/juno/crates/flow_native/src/main.rs:439-441 | An optional statement appends its text when present, nothing otherwise. |
| FlowNative.Compiler.GenOptExpr | unsupported/juno/crates/flow_native/src/main.rs:443-450 | An optional expression appends its text and its suffix when present, nothing otherwise. |
| LoweringProperties.ForEntersScopeOnce | unsupported/juno/crates/flow_native/src/main.rs:436-438 | A `for` opens a block and, if it has a scope, enters that scope once, with the enclosing scope as parent, immediately before `for(`. Without a scope, `for(` follows the brace at once. |
| FlowNative.Compiler.GenIf | unsupported/juno/crates/flow_native/src/main.rs:456-471 | Appends `if(`, the test's boolean, the consequent, then an `else` block holding the alternate or nothing. |
| LoweringProperties.IfAlwaysElse | unsupported/juno/crates/flow_native/src/main.rs:462-470 | An `if` always ends with an `else` block holding the alternate; with no alternate the block is empty. |
| FlowNative.Compiler.GenTry | unsupported/juno/crates/flow_native/src/main.rs:472-493 | Appends `try {`, the block in the current scope, `} catch (FNValue ex){`, the handler and `}`. |
| FlowNative.Compiler.GenCatch | unsupported/juno/crates/flow_native/src/main.rs:476-492 | The handler enters its scope with the enclosing scope as parent, binds the parameter to `ex` when present, and appends each body statement followed by `;`. A missing handler, a non-catch node or a non-block body fails. |
| LoweringProperties.CatchParentIsEnclosing | unsupported/juno/crates/flow_native/src/main.rs:472-483 | The catch clause's scope is entered right after `catch (FNValue ex){`, with the scope around the `try` as parent. |
| LoweringProperties.TryWithoutHandler | unsupported/juno/crates/flow_native/src/main.rs:474-480 | A `try` without a handler fails with "finally is not implemented", unless its block failed first. |
| FlowNative.Compiler.GenThrow | unsupported/juno/crates/flow_native/src/main.rs:494-497 | Appends `throw ` and the argument. |
| Propagation.StmtsOkIffAll | unsupported/juno/crates/flow_native/src/main.rs:92-95 | A statement list lowers exactly when each of its statements does. |
| Propagation.StmtsFirstFailure | unsupported/juno/crates/flow_native/src/main.rs:92-95 | The list fails with the error of its first failing statement. |
| Propagation.ExprsOkIffAll | unsupported/juno/crates/flow_native/src/main.rs:223-226 | An expression list lowers exactly when each of its expressions does. |
| Propagation.ExprsFirstFailure | unsupported/juno/crates/flow_native/src/main.rs:248-251 | The list fails with the error of its first failing expression. |
| Propagation.FormalsOkIffAll | unsupported/juno/crates/flow_native/src/main.rs:181-184 | The parameter copies lower exactly when every formal does, in the function's scope. |
| Propagation.PropertiesOkIffAll | unsupported/juno/crates/flow_native/src/main.rs:206-218 | An object literal's initialisers lower exactly when every property does. |
| Propagation.PropertiesFirstFailure | unsupported/juno/crates/flow_native/src/main.rs:206-218 | The object literal fails with the error of its first failing property. |
| Propagation.StmtsErrPrefix | unsupported/juno/crates/flow_native/src/main.rs:92-95 | Once a prefix of a statement list fails, the list fails with that error. |
| Propagation.ProgramOkIff | unsupported/juno/crates/flow_native/src/main.rs:84-97 | The program lowers exactly when the node is a module with a scope and every top-level statement lowers. |
| LoweringProperties.ProgramFailures | unsupported/juno/crates/flow_native/src/main.rs:89-90 | The program fails with a missing scope when the module has none, and as an unexpected node on anything but a module. |
| Text.NatStrInjective | unsupported/juno/crates/flow_native/src/main.rs:53 | Distinct numbers print as distinct decimal numerals, so scope, declaration and parameter names never collide. |
| Text.NatStrAscii | unsupported/juno/crates/flow_native/src/main.rs:39 | Every numeral the lowering prints is ASCII. |

## Left out

- `read_stdin`, `run` and `main` (lines 503-554): they drive the external parser and the resolver (`sema::resolve_module`) and write to stdout. The model takes the resolved module and the tables as inputs.
- `Writer::write_ascii` (lines 37-43): the `BufWriter` I/O and its write-failure panic are not modelled. `out!` is plain appending to `out`.
- Text.NatStrAscii: the ASCII `debug_assert` (line 39) is proved only for the numerals the lowering prints, not for the whole output. Identifier names are assumed to be ASCII. In a debug build, a non-ASCII name written into `->props["…"]` (line 153) trips that assertion; the model has no failure for it. The numeric-literal and string-literal tokens are opaque rendered text supplied with the node, and nothing is proved about them.
- Numeric literals (line 348): the model does not define Rust's `f64` display formatting.
- String literals (lines 354-355): the model does not define UTF-16 lossy decoding or Rust's `{:?}` escaping. Both literal kinds carry their rendered token in the node.
- `GCLock`, `NodeRc` and the arena lifetimes: node identity is an explicit `NodeId` carried by each node.
- `node_cast!`: its panic is the failure `UnexpectedNode`.
- Fields the lowering never reads are not in `Ast.Node`. These are the `finalizer` of a `TryStatement` (dropped when a `catch` is present, see above), the `async`/`generator` flags of functions, the `kind` of a `VariableDeclaration` and the `kind`/`method`/`shorthand` of a `Property`. The model therefore cannot state that a `finally` next to a `catch` is lost.
- LoweringProperties.LocalIdentifierReachesOwner: in a release build, the `u32` depth difference (line 266) would wrap around. The model fails with `DepthUnderflow`, the behaviour of an overflow-checked build. The identifier lemmas assume `Valid` tables, as the resolver provides.
- FlowNative.Compiler.NewValue: the counter and the method are modelled, but no `gen_*` calls `new_value` in this source, so nothing uses it.
- The meaning of the generated C++ at run time (the `FNRuntime` semantics) is not modelled. The properties are stated about the text and read back with the decoders of `Decode`.
- Partial output after a panic: the methods guarantee only that the output grows, with the old output as a prefix. The text written before the failure is not pinned down.
- Termination of recursion through a `seq` of child nodes relies on Dafny's datatype ordering. No fuel bound is needed.
