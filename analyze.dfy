/** The semantic analyser of analyze.c: pass 1 (buildSymtab) fills the
    symbol table and resolves every use of a name, pass 2 (typeCheck)
    re-enters the scopes pass 1 cached on the compound statements and
    applies the type rules.  Both passes are one generic traversal with a
    pre-order and a post-order hook.  Messages become diagnostic records. */
module Analyze {
  import opened Wrappers
  import opened Tree
  import opened SymTab
  import opened TypeRules

  /** The messages of typeError. */
  datatype TypeMessage =
    | ExpectedExpression
    | InvalidIfCondition
    | InvalidLoopCondition
    | InvalidReturnType
    | InvalidVariableType
    | InvalidExpression
    | InvalidFunctionCall

  /** What a reporter says, without its wording. */
  datatype Category =
    | UndeclaredFunction(name: string)
    | UndeclaredVariable(name: string)
    | RedefinedFunction(name: string)
    | RedefinedVariable(name: string)
    | FunctionNotGlobal(name: string)
    | VoidVariable(name: string)
    | TypeError(message: TypeMessage)

  /** One reported error and the line it is reported at. */
  datatype Diagnostic = Diagnostic(line: int, category: Category)

  /** An expression node as the type rules see it. */
  function OperandOf(n: TreeNode): Operand
    reads n`expType
  {
    Operand(n.expType, n.child[0] != null)
  }

  /** `ns` is the sibling list from `head`, followed for at most `n`
      nodes: it starts at `head`, each node's sibling is the next node,
      and it stops short of `n` nodes only where the list ends. */
  ghost predicate SiblingWalk(ns: seq<TreeNode>, head: TreeNode?, n: nat)
  {
    && |ns| <= n
    && (ns != [] ==> ns[0] == head)
    && (forall k {:trigger ns[k].sibling} :: 0 <= k < |ns| - 1 ==> ns[k].sibling == ns[k + 1])
    && (|ns| < n ==> if ns == [] then head == null else ns[|ns| - 1].sibling == null)
  }

  /** The sibling list from `a`, first to last: the arguments of a call
      when `a` is its first child.  In a tree (`a.Valid()`) every sibling
      heads a smaller subtree than the node before it, so the walk goes
      to the end of the list. */
  ghost function ArgNodes(a: TreeNode?): (r: seq<TreeNode>)
    ensures a == null <==> r == []
    ensures a != null ==> r[0] == a
    ensures a == null || a.Valid() ==> SiblingWalk(r, a, |r| + 1)
    decreases ReprOf(a)
  {
    if a == null then []
    else if a.sibling != null && a.sibling.Repr < a.Repr then [a] + ArgNodes(a.sibling)
    else [a]
  }

  /** The first `n` nodes of the sibling list from `p`: the parameters a
      call is checked against when `p` is a function's parameter slot.
      The list hangs off a declaration node found in the symbol table, so
      nothing bounds it but `n`. */
  ghost function ParamNodes(p: TreeNode?, n: nat): (r: seq<TreeNode>)
    ensures SiblingWalk(r, p, n)
    decreases n
  {
    if p == null || n == 0 then [] else [p] + ParamNodes(p.sibling, n - 1)
  }

  /** The operands of a list of expression nodes. */
  function Operands(ns: seq<TreeNode>): (r: seq<Operand>)
    reads ns
    ensures |r| == |ns| && forall k :: 0 <= k < |ns| ==> r[k] == OperandOf(ns[k])
  {
    if ns == [] then [] else [OperandOf(ns[0])] + Operands(ns[1..])
  }

  /** The lines of a list of nodes. */
  function Lines(ns: seq<TreeNode>): (r: seq<int>)
    ensures |r| == |ns| && forall k :: 0 <= k < |ns| ==> r[k] == ns[k].lineno
  {
    if ns == [] then [] else [ns[0].lineno] + Lines(ns[1..])
  }

  /** The arguments of a call whose first child is `a`, first to last. */
  ghost function ArgsOf(a: TreeNode?): seq<Operand>
    reads ArgNodes(a)
  {
    Operands(ArgNodes(a))
  }

  /** The lines of the arguments of a call whose first child is `a`. */
  ghost function ArgLinesOf(a: TreeNode?): (r: seq<int>)
    ensures |r| == |ArgsOf(a)|
    ensures a == null ==> r == []
    ensures a != null ==> r[0] == a.lineno
  {
    Lines(ArgNodes(a))
  }

  /** A parameter node's type specifier is `void` (the `(void)` list). */
  predicate VoidParam(p: TreeNode)
  {
    p.child[0] != null && p.child[0].typeSpec == VOID
  }

  /** The parameters a list of parameter nodes declares, first to last. */
  ghost function Params(ps: seq<TreeNode>): (r: seq<Param>)
    reads ps
    ensures |r| == |ps| && forall k :: 0 <= k < |ps| ==> r[k] == Param(ps[k].expType, VoidParam(ps[k]))
  {
    if ps == [] then [] else [Param(ps[0].expType, VoidParam(ps[0]))] + Params(ps[1..])
  }

  /** Up to `n` parameters of the list from `p`, first to last. */
  ghost function ParamsOf(p: TreeNode?, n: nat): seq<Param>
    reads ParamNodes(p, n)
  {
    Params(ParamNodes(p, n))
  }

  /** The diagnostics of a call's argument check: none when it is
      accepted, one at the offending argument, or one for a short call. */
  function CallDiagnostics(v: CallVerdict, callLine: int, argLines: seq<int>): (ds: seq<Diagnostic>)
    ensures |ds| <= 1
    ensures ds == [] <==> v == CallOk || (v.BadArgument? && v.index >= |argLines|)
  {
    match v
    case CallOk => []
    case BadArgument(k) =>
      if k < |argLines| then [Diagnostic(argLines[k], TypeError(InvalidFunctionCall))] else []
    case MissingArguments => [Diagnostic(MissingArgumentsLine(callLine, argLines), TypeError(InvalidFunctionCall))]
  }

  /** The verdict of the argument check on a call whose first argument
      is `first`, against the parameter list from `params`, read one
      parameter past the last argument. */
  ghost function CallVerdictOf(first: TreeNode?, params: TreeNode?): CallVerdict
    reads ArgNodes(first), ParamNodes(params, |ArgNodes(first)| + 1)
  {
    CheckArgs(ArgsOf(first), ParamsOf(params, |ArgNodes(first)| + 1))
  }

  /** The diagnostics of that check on a call at line `callLine`. */
  ghost function CallDiagnosticsOf(first: TreeNode?, params: TreeNode?, callLine: int): seq<Diagnostic>
    reads ArgNodes(first), ParamNodes(params, |ArgNodes(first)| + 1)
  {
    CallDiagnostics(CallVerdictOf(first, params), callLine, ArgLinesOf(first))
  }

  /** A call's argument check reports nothing exactly when it accepts the
      call: a rejected argument is always one of the call's, so it has a
      line to be reported at. */
  lemma CallDiagnosticsNoneIff(first: TreeNode?, params: TreeNode?, callLine: int)
    ensures CallDiagnosticsOf(first, params, callLine) == [] <==> CallVerdictOf(first, params) == CallOk
  {
  }

  /** The diagnostic undeclaredError gives a use of `name` in a node of
      kind `kind`: a call names a function, anything else a variable. */
  function UndeclaredAt(kind: NodeKind, name: string, line: int): (d: Diagnostic)
    ensures d.line == line
    ensures d.category == UndeclaredFunction(name) <==> kind == ExpK(CallK)
    ensures d.category == UndeclaredVariable(name) <==> kind != ExpK(CallK)
  {
    Diagnostic(line, if kind == ExpK(CallK) then UndeclaredFunction(name) else UndeclaredVariable(name))
  }

  /** The diagnostic redefinedError gives a declaration of `name` in a
      node of kind `kind`: a function or a variable. */
  function RedefinedAt(kind: NodeKind, name: string, line: int): (d: Diagnostic)
    ensures d.line == line
    ensures d.category == RedefinedFunction(name) <==> kind == DeclK(FuncK)
    ensures d.category == RedefinedVariable(name) <==> kind != DeclK(FuncK)
  {
    Diagnostic(line, if kind == DeclK(FuncK) then RedefinedFunction(name) else RedefinedVariable(name))
  }

  /** The stack `after` is `before` with one more scope on top. */
  ghost predicate PushedOne(before: seq<nat>, after: seq<nat>)
  {
    |after| == |before| + 1 && after[..|before|] == before
  }

  /** What pass 1 may meet while a function's scope waits for its body:
      nothing, a parameter, a type specifier. */
  ghost predicate Flagged(t: TreeNode?)
    reads t
  {
    t == null || t.kind.ParamK? || t.kind.TypeK?
  }

  /** A stack after sc_pop: the top dropped, an empty stack left alone. */
  function Popped(stack: seq<nat>): seq<nat>
  {
    if stack == [] then [] else stack[..|stack| - 1]
  }

  /** `n` declares the builtin `int input(void)`: line 0, type Integer, an
      `int` type node and no parameter node. */
  ghost predicate IsInputNode(n: TreeNode)
    reads n
  {
    && n.kind == DeclK(FuncK) && n.name == "input" && n.lineno == 0 && n.expType == Integer
    && n.child[0] != null && n.child[0].typeSpec == INT && n.child[1] == null
  }

  /** `n` declares the builtin `void output(int arg)`: line 0, type Void, a
      `void` type node and one scalar parameter `arg` of type Integer. */
  ghost predicate IsOutputNode(n: TreeNode)
    reads n, n.child[1]
  {
    && n.kind == DeclK(FuncK) && n.name == "output" && n.lineno == 0 && n.expType == Void
    && n.child[0] != null && n.child[0].typeSpec == VOID
    && var arg := n.child[1];
    && arg != null && arg.kind == ParamK(NonArrParamK) && arg.name == "arg" && arg.expType == Integer
    && arg.sibling == null && arg.child[0] != null && arg.child[0].typeSpec == INT
  }

  /** The declaration node of the builtin `int input(void)`, with an empty
      body; the synthetic children carry line `lineno`. */
  method InputNode(lineno: int) returns (func: TreeNode)
    ensures fresh(func) && IsInputNode(func)
  {
    var typeSpec := new TreeNode.NewType(FuncK, lineno, INT);
    var compStmt := new TreeNode.NewStmt(CompK, lineno);
    func := new TreeNode.Linked(DeclK(FuncK), 0, [typeSpec, null, compStmt], null);
    func.expType := Integer;
    func.name := "input";
  }

  /** The parameter `int arg` of the builtin `output`, typed Integer. */
  method ArgParamNode(lineno: int) returns (param: TreeNode)
    ensures fresh(param.Repr) && param.Valid()
    ensures param.kind == ParamK(NonArrParamK) && param.name == "arg" && param.expType == Integer
    ensures param.sibling == null && param.child[0] != null && param.child[0].typeSpec == INT
  {
    var paramType := new TreeNode.NewType(FuncK, lineno, INT);
    param := new TreeNode.Linked(ParamK(NonArrParamK), lineno, [paramType, null, null], null);
    param.name := "arg";
    param.expType := Integer;
  }

  /** The declaration node of the builtin `void output(int arg)`, with an
      empty body; the synthetic children carry line `lineno`. */
  method OutputNode(lineno: int) returns (func: TreeNode)
    ensures fresh(func) && IsOutputNode(func)
  {
    var typeSpec := new TreeNode.NewType(FuncK, lineno, VOID);
    var param := ArgParamNode(lineno);
    var compStmt := new TreeNode.NewStmt(CompK, lineno);
    func := new TreeNode.Linked(DeclK(FuncK), 0, [typeSpec, param, compStmt], null);
    func.expType := Void;
    func.name := "output";
  }

  /** `st_insert(name, lineno, addLocation(), node)`, the way every
      declaration is entered: the top level's location counter advances
      whether or not the insertion takes place. */
  method InsertAtNextLocation(st: SymTab, name: string, lineno: int, node: TreeNode)
    requires st.Valid() && st.scopeStack != []
    modifies st
    ensures st.Valid() && st.scopeStack == old(st.scopeStack)
    ensures st.location == old(st.location)[|old(st.location)| - 1 := old(st.location[|st.location| - 1]) + 1]
    ensures st.scopes == Inserted(old(st.scopes), old(st.Top()).value, BucketRec(name, node, [lineno], old(st.location[|st.location| - 1])))
    ensures Extends(old(st.scopes), st.scopes)
  {
    var loc := st.AddLocation();
    ghost var before := st.scopes;
    assert before == old(st.scopes) && st.Top() == old(st.Top());
    st.Insert(name, lineno, loc, node);
    assert Extends(before, st.scopes);
  }

  /** `scopes` and `location` are `before` and `beforeLoc` after `input`
      and then `output` went into scope `top` with line 0, under the top
      level's next two locations. */
  ghost predicate BuiltinsInserted(before: seq<ScopeRec>, beforeLoc: seq<nat>, top: nat, input: TreeNode, output: TreeNode,
                                   scopes: seq<ScopeRec>, location: seq<nat>)
  {
    && top < |before| && |before[top].hashTable| == SIZE && beforeLoc != []
    && var loc := beforeLoc[|beforeLoc| - 1];
    && location == beforeLoc[|beforeLoc| - 1 := loc + 2]
    && scopes == Inserted(Inserted(before, top, BucketRec("input", input, [0], loc)),
                          top, BucketRec("output", output, [0], loc + 1))
  }

  /** The insertions of insertIOFuncNode: `input` and then `output` go
      into the top scope under the top level's next two locations. */
  method InsertBuiltins(st: SymTab, input: TreeNode, output: TreeNode)
    requires st.Valid() && st.scopeStack != []
    modifies st
    ensures st.Valid() && st.scopeStack == old(st.scopeStack)
    ensures BuiltinsInserted(old(st.scopes), old(st.location), old(st.Top()).value, input, output, st.scopes, st.location)
    ensures Extends(old(st.scopes), st.scopes)
  {
    InsertAtNextLocation(st, "input", 0, input);
    ghost var l1, s1 := st.location, st.scopes;
    InsertAtNextLocation(st, "output", 0, output);
    assert st.location == l1[|l1| - 1 := l1[|l1| - 1] + 1];
    ExtendsTrans(old(st.scopes), s1, st.scopes);
  }

  /** insertIOFuncNode: declare the builtins `int input(void)` and `void
      output(int arg)` in the top scope, at line 0, under the top level's
      next two locations. */
  method InsertIOFuncNode(st: SymTab, lineno: int) returns (ghost input: TreeNode, ghost output: TreeNode)
    requires st.Valid() && st.scopeStack != []
    modifies st
    ensures st.Valid() && st.scopeStack == old(st.scopeStack)
    ensures BuiltinsInserted(old(st.scopes), old(st.location), old(st.Top()).value, input, output, st.scopes, st.location)
    ensures fresh(input) && fresh(output) && IsInputNode(input) && IsOutputNode(output)
    ensures Extends(old(st.scopes), st.scopes)
  {
    var inputNode := InputNode(lineno);
    var outputNode := OutputNode(lineno);
    input, output := inputNode, outputNode;
    assert st.scopes == old(st.scopes) && st.location == old(st.location) && st.Top() == old(st.Top());
    InsertBuiltins(st, inputNode, outputNode);
  }

  /** Scope `g` declares `rec.name` with the declaring node and location
      of `rec`; its line list starts with `rec`'s and may have grown. */
  ghost predicate DeclaredAs(scopes: seq<ScopeRec>, g: nat, rec: BucketRec)
  {
    && g < |scopes| && |scopes[g].hashTable| == SIZE
    && FindInScope(scopes, g, rec.name).Some?
    && RecordExtends(rec, RecordAt(scopes, FindInScope(scopes, g, rec.name).value))
  }

  /** Scope `g` declares the builtins: `input` at location 0 and `output`
      at location 1, each with its own node and first used at line 0. */
  ghost predicate BuiltinsAt(scopes: seq<ScopeRec>, g: nat, input: TreeNode, output: TreeNode)
  {
    DeclaredAs(scopes, g, BucketRec("input", input, [0], 0)) && DeclaredAs(scopes, g, BucketRec("output", output, [0], 1))
  }

  /** Whatever is added to the table after the builtins are declared,
      they stay declared where they were, under the same locations. */
  lemma BuiltinsSurvive(a: seq<ScopeRec>, b: seq<ScopeRec>, g: nat, input: TreeNode, output: TreeNode)
    requires ScopesOk(b) && Extends(a, b)
    requires BuiltinsAt(a, g, input, output)
    ensures BuiltinsAt(b, g, input, output)
  {
    ExtendsKeepsFind(a, b, g, "input");
    ExtendsKeepsFind(a, b, g, "output");
  }

  /** The condition of an if or while statement as checkNode sees it:
      missing, or present with its type. */
  function ConditionOf(t: TreeNode): Option<ExpType>
    reads t, t.child[0]
  {
    if t.child[0] == null then None else Some(t.child[0].expType)
  }

  /** The value of a return statement as checkNode sees it. */
  function ReturnValueOf(t: TreeNode): Option<Operand>
    reads t, t.child[0]
  {
    if t.child[0] == null then None else Some(OperandOf(t.child[0]))
  }

  /** Inserting the two builtins into a scope that declares neither puts
      `input` at the top level's next location and `output` at the one
      after, each with the use list [0] and its own declaring node, and
      leaves the scope's name, parent and level alone. */
  lemma BuiltinsDeclared(scopes: seq<ScopeRec>, location: seq<nat>, s: nat, input: TreeNode, output: TreeNode,
                         r: seq<ScopeRec>, rLocation: seq<nat>)
    requires ScopesOk(scopes) && s < |scopes|
    requires FindInScope(scopes, s, "input").None? && FindInScope(scopes, s, "output").None?
    requires BuiltinsInserted(scopes, location, s, input, output, r, rLocation)
    ensures ScopesOk(r) && |r| == |scopes|
    ensures r[s].funcName == scopes[s].funcName && r[s].parent == scopes[s].parent
    ensures r[s].nestedLevel == scopes[s].nestedLevel
    ensures var loc := location[|location| - 1];
      && FindInScope(r, s, "input").Some? && FindInScope(r, s, "output").Some?
      && RecordAt(r, FindInScope(r, s, "input").value) == BucketRec("input", input, [0], loc)
      && RecordAt(r, FindInScope(r, s, "output").value) == BucketRec("output", output, [0], loc + 1)
  {
    var loc := location[|location| - 1];
    var inRec, outRec := BucketRec("input", input, [0], loc), BucketRec("output", output, [0], loc + 1);
    var r1 := Inserted(scopes, s, inRec);
    InsertKeepsTable(scopes, s, inRec);
    assert r1 == Prepended(scopes, s, inRec);
    PrependedKeepsAbsent(scopes, s, inRec, "output");
    var r2 := Inserted(r1, s, outRec);
    InsertKeepsTable(r1, s, outRec);
    assert r2 == Prepended(r1, s, outRec);
    PrependedKeepsFound(r1, s, outRec, "input");
    assert r == r2;
  }

  /** The argument loop of checkNode on a call: walk the arguments from
      `first` and the parameters from `params` side by side, stop at the
      first argument that is Void, has no parameter or differs from its
      parameter's type, and when the arguments run out look at the next
      parameter.  `nodes` and `pnodes` are the two lists, `args` and `ps`
      what the type rules see of them.  The verdict is the one CheckArgs
      gives; `line` is the offending argument's, or for a short call the
      first argument's (the call's own, `callLine`, when there is none). */
  method WalkArguments(first: TreeNode?, params: TreeNode?, callLine: int,
                       ghost nodes: seq<TreeNode>, ghost pnodes: seq<TreeNode>,
                       ghost args: seq<Operand>, ghost ps: seq<Param>) returns (verdict: CallVerdict, line: int)
    requires SiblingWalk(nodes, first, |nodes| + 1) && SiblingWalk(pnodes, params, |nodes| + 1)
    requires |args| == |nodes| && forall k :: 0 <= k < |nodes| ==> args[k] == OperandOf(nodes[k])
    requires |ps| == |pnodes| && forall k :: 0 <= k < |pnodes| ==> ps[k] == Param(pnodes[k].expType, VoidParam(pnodes[k]))
    ensures verdict == CheckArgs(args, ps)
    ensures verdict.BadArgument? ==> verdict.index < |nodes| && line == nodes[verdict.index].lineno
    ensures verdict == MissingArguments ==> line == if first == null then callLine else first.lineno
  {
    var arg, param := first, params;
    var i := 0;
    verdict, line := CallOk, 0;
    while arg != null
      invariant 0 <= i <= |nodes| && i <= |pnodes|
      invariant arg == if i < |nodes| then nodes[i] else null
      invariant param == if i < |pnodes| then pnodes[i] else null
      invariant CheckArgsFrom(args, ps, i) == CheckArgs(args, ps)
      invariant verdict == CallOk
      decreases |nodes| - i
    {
      if param == null || arg.expType == Void || param.expType != Decay(OperandOf(arg)) {
        verdict, line := BadArgument(i), arg.lineno;
        break;
      }
      arg := arg.sibling;
      param := param.sibling;
      i := i + 1;
    }
    if verdict == CallOk && param != null && !VoidParam(param) {
      verdict := MissingArguments;
      line := if first == null then callLine else first.lineno;
    }
  }

  /** The argument loop on a call whose first argument is `first`,
      against the parameter list from `params`: its verdict is the one
      CheckArgs gives on the call's arguments and parameters, and it
      yields exactly the diagnostics CallDiagnostics gives for that
      verdict. */
  method MatchArguments(first: TreeNode?, params: TreeNode?, callLine: int) returns (verdict: CallVerdict, line: int)
    requires first != null ==> first.Valid()
    ensures verdict == old(CallVerdictOf(first, params))
    ensures old(CallDiagnosticsOf(first, params, callLine)) ==
      if verdict == CallOk then [] else [Diagnostic(line, TypeError(InvalidFunctionCall))]
  {
    ghost var nodes := ArgNodes(first);
    ghost var pnodes := ParamNodes(params, |nodes| + 1);
    verdict, line := WalkArguments(first, params, callLine, nodes, pnodes, Operands(nodes), Params(pnodes));
  }

  /** The analyser's state: the symbol table and the statics of
      analyze.c, and the error flag every reporter raises. */
  class Analyzer {
    const st: SymTab
    /** `globalScope`: the scope buildSymtab opened first. */
    var globalScope: Option<nat>
    /** `funcName`: the name of the last function declaration met, "" before any. */
    var funcName: string
    /** `inScopeBefore`: the scope of the function just declared is open,
        and the next compound statement, its body, reuses it. */
    var inScopeBefore: bool
    /** What the reporters printed, in order. */
    var diags: seq<Diagnostic>
    /** The global `Error` flag. */
    var error: bool

    ghost predicate Valid()
      reads this, st
    {
      && st.Valid()
      && (globalScope.Some? ==> globalScope.value < |st.scopes|)
      && (diags != [] ==> error)
    }

    /** Between the two states exactly `ds` were reported, and the error
        flag was raised if any was. */
    twostate predicate Reported(ds: seq<Diagnostic>)
      reads this
    {
      diags == old(diags) + ds && error == (old(error) || ds != [])
    }

    /** Between the two states diagnostics were only added, and the error
        flag was raised exactly if one was. */
    twostate predicate Accumulated()
      reads this
    {
      old(diags) <= diags && error == (old(error) || |diags| > |old(diags)|)
    }

    /** The state before either pass: an empty symbol table, no errors. */
    constructor ()
      ensures Valid() && fresh(st)
      ensures st.scopes == [] && st.scopeStack == [] && globalScope.None?
      ensures funcName == "" && !inScopeBefore && diags == [] && !error
    {
      st := new SymTab();
      globalScope := None;
      funcName := "";
      inScopeBefore := false;
      diags := [];
      error := false;
    }

    // -------------------------------------------------------------------
    // Reporters.

    /** typeError: one type error at `line`. */
    method ReportTypeError(line: int, msg: TypeMessage)
      requires Valid()
      modifies this`diags, this`error
      ensures Valid() && Reported([Diagnostic(line, TypeError(msg))])
    {
      diags := diags + [Diagnostic(line, TypeError(msg))];
      error := true;
    }

    /** undeclaredError: an undeclared function for a call, an undeclared
        variable for an identifier. */
    method ReportUndeclared(t: TreeNode)
      requires Valid() && (t.kind == ExpK(IdK) || t.kind == ExpK(ArrIdK) || t.kind == ExpK(CallK))
      modifies this`diags, this`error
      ensures Valid() && Reported([UndeclaredAt(t.kind, t.name, t.lineno)])
    {
      if t.kind == ExpK(CallK) {
        diags := diags + [Diagnostic(t.lineno, UndeclaredFunction(t.name))];
      } else {
        diags := diags + [Diagnostic(t.lineno, UndeclaredVariable(t.name))];
      }
      error := true;
    }

    /** redefinedError: a redefined function or variable. */
    method ReportRedefined(t: TreeNode)
      requires Valid() && t.kind.DeclK?
      modifies this`diags, this`error
      ensures Valid() && Reported([RedefinedAt(t.kind, t.name, t.lineno)])
    {
      if t.kind == DeclK(FuncK) {
        diags := diags + [Diagnostic(t.lineno, RedefinedFunction(t.name))];
      } else {
        diags := diags + [Diagnostic(t.lineno, RedefinedVariable(t.name))];
      }
      error := true;
    }

    /** funcDeclNotGlobal: a function declared inside another scope. */
    method ReportNotGlobal(t: TreeNode)
      requires Valid()
      modifies this`diags, this`error
      ensures Valid() && Reported([Diagnostic(t.lineno, FunctionNotGlobal(t.name))])
    {
      diags := diags + [Diagnostic(t.lineno, FunctionNotGlobal(t.name))];
      error := true;
    }

    /** voidVarError: a variable declared with type `void`. */
    method ReportVoidVariable(t: TreeNode, name: string)
      requires Valid()
      modifies this`diags, this`error
      ensures Valid() && Reported([Diagnostic(t.lineno, VoidVariable(name))])
    {
      diags := diags + [Diagnostic(t.lineno, VoidVariable(name))];
      error := true;
    }

    // -------------------------------------------------------------------
    // Pass 1.

    /** insertNode on a compound statement: a function body reuses the
        scope its declaration opened (and clears the flag); any other
        compound statement opens a new scope, named after the current
        function.  Either way the node records the top scope. */
    method EnterCompound(t: TreeNode)
      requires Valid() && t.kind == StmtK(CompK) && st.scopeStack != []
      modifies this`inScopeBefore, st, t`scope
      ensures Valid() && !inScopeBefore
      ensures old(inScopeBefore) ==> st.scopes == old(st.scopes) && st.scopeStack == old(st.scopeStack) && st.location == old(st.location)
      ensures !old(inScopeBefore) ==>
        && st.scopes == old(st.scopes) + [Created(funcName, old(st.Top()), old(|st.scopeStack|))]
        && st.scopeStack == old(st.scopeStack) + [old(|st.scopes|)]
        && st.location == old(st.location) + [0]
      ensures st.Top() == Some(t.scope) && Extends(old(st.scopes), st.scopes)
    {
      ExtendsRefl(st.scopes);
      if inScopeBefore {
        inScopeBefore := false;
      } else {
        var scope := st.Create(funcName);
        st.Push(scope);
      }
      t.scope := st.Top().value;
    }

    /** insertNode on an identifier, an indexed identifier or a call: the
        record the name resolves to from the top scope gets the use line
        appended; a name visible nowhere is reported undeclared. */
    method ResolveUse(t: TreeNode)
      requires Valid() && (t.kind == ExpK(IdK) || t.kind == ExpK(ArrIdK) || t.kind == ExpK(CallK))
      modifies this`diags, this`error, st
      ensures Valid() && st.scopeStack == old(st.scopeStack) && st.location == old(st.location)
      ensures old(st.Visible(t.name)).None? ==>
        st.scopes == old(st.scopes) && Reported([UndeclaredAt(t.kind, t.name, t.lineno)])
      ensures old(st.Visible(t.name)).Some? ==>
        st.scopes == WithLine(old(st.scopes), old(st.Visible(t.name)).value, t.lineno) && Reported([])
      ensures Extends(old(st.scopes), st.scopes)
    {
      ExtendsRefl(st.scopes);
      var loc := st.Lookup(t.name);
      if loc == -1 {
        ReportUndeclared(t);
      } else {
        st.AddLineno(t.name, t.lineno);
      }
    }

    /** insertNode on a function declaration.  The name becomes the current
        function name.  A name the top scope already holds is reported
        redefined; a declaration while the top scope is not the global one
        is reported as not allowed; either way nothing is inserted and no
        scope opened.  Otherwise the function is opened (OpenFunction). */
    method DeclareFunction(t: TreeNode)
      requires Valid() && st.scopeStack != [] && t.kind == DeclK(FuncK) && t.child[0] != null
      modifies this`funcName, this`inScopeBefore, this`diags, this`error, st, t`expType
      ensures Valid() && funcName == t.name
      ensures var top := old(st.Top()).value;
        Declares(old(st.scopes)[top], t.name) || old(st.Top()) != globalScope ==>
          && st.scopes == old(st.scopes) && st.scopeStack == old(st.scopeStack) && st.location == old(st.location)
          && inScopeBefore == old(inScopeBefore) && t.expType == old(t.expType)
      ensures var top := old(st.Top()).value;
        Declares(old(st.scopes)[top], t.name) ==> Reported([RedefinedAt(t.kind, t.name, t.lineno)])
      ensures var top := old(st.Top()).value;
        !Declares(old(st.scopes)[top], t.name) && old(st.Top()) != globalScope ==>
          Reported([Diagnostic(t.lineno, FunctionNotGlobal(t.name))])
      ensures var top, loc := old(st.Top()).value, old(st.location[|st.location| - 1]);
        !Declares(old(st.scopes)[top], t.name) && old(st.Top()) == globalScope ==>
          && st.scopes == Prepended(old(st.scopes), top, BucketRec(t.name, t, [t.lineno], loc))
                          + [Created(t.name, old(st.Top()), old(|st.scopeStack|))]
          && st.scopeStack == old(st.scopeStack) + [old(|st.scopes|)]
          && st.location == old(st.location)[|old(st.location)| - 1 := loc + 1] + [0]
          && inScopeBefore && Reported([])
          && t.expType == (if t.child[0].typeSpec == INT then Integer else Void)
      ensures Extends(old(st.scopes), st.scopes)
    {
      ExtendsRefl(st.scopes);
      funcName := t.name;
      var loc := st.LookupTop(t.name);
      if loc >= 0 {
        ReportRedefined(t);
      } else if st.Top() != globalScope {
        ReportNotGlobal(t);
      } else {
        OpenFunction(t);
      }
    }

    /** insertNode on a variable or array declaration: the type is set
        (Integer, IntegerArray) before anything else; a name the top scope
        lacks is inserted there under the next location, and a name it
        holds is reported redefined, its record left as it was. */
    method DeclareVariable(t: TreeNode)
      requires Valid() && st.scopeStack != [] && (t.kind == DeclK(VarK) || t.kind == DeclK(ArrVarK))
      modifies this`diags, this`error, st, t`expType
      ensures Valid() && st.scopeStack == old(st.scopeStack)
      ensures t.expType == if t.kind == DeclK(VarK) then Integer else IntegerArray
      ensures var top, loc := old(st.Top()).value, old(st.location[|st.location| - 1]);
        !Declares(old(st.scopes)[top], t.name) ==>
          && st.scopes == Prepended(old(st.scopes), top, BucketRec(t.name, t, [t.lineno], loc))
          && st.location == old(st.location)[|old(st.location)| - 1 := loc + 1]
          && Reported([])
      ensures Declares(old(st.scopes)[old(st.Top()).value], t.name) ==>
        && st.scopes == old(st.scopes) && st.location == old(st.location)
        && Reported([RedefinedAt(t.kind, t.name, t.lineno)])
      ensures Extends(old(st.scopes), st.scopes)
    {
      if t.kind == DeclK(VarK) {
        t.expType := Integer;
      } else {
        t.expType := IntegerArray;
      }
      var loc := st.LookupTop(t.name);
      FindInScopeDeclares(st.scopes, st.Top().value, t.name);
      if loc < 0 {
        InsertAtNextLocation(st, t.name, t.lineno, t);
      } else {
        ReportRedefined(t);
        ExtendsRefl(st.scopes);
      }
    }

    /** insertNode on a parameter: the `(void)` list declares nothing; any
        other parameter is inserted under the next location and typed
        (Integer, IntegerArray) only when its name is visible nowhere on
        the scope chain, and is otherwise dropped without a word and
        without a type. */
    method DeclareParam(t: TreeNode)
      requires Valid() && st.scopeStack != [] && t.kind.ParamK? && t.child[0] != null
      modifies st, t`expType
      ensures Valid() && st.scopeStack == old(st.scopeStack)
      ensures t.child[0].typeSpec == VOID || old(st.Visible(t.name)).Some? ==>
        st.scopes == old(st.scopes) && st.location == old(st.location) && t.expType == old(t.expType)
      ensures var top, loc := old(st.Top()).value, old(st.location[|st.location| - 1]);
        t.child[0].typeSpec != VOID && old(st.Visible(t.name)).None? ==>
          && st.scopes == Prepended(old(st.scopes), top, BucketRec(t.name, t, [t.lineno], loc))
          && st.location == old(st.location)[|old(st.location)| - 1 := loc + 1]
          && t.expType == if t.kind == ParamK(NonArrParamK) then Integer else IntegerArray
      ensures Extends(old(st.scopes), st.scopes)
    {
      ExtendsRefl(st.scopes);
      if t.child[0].typeSpec == VOID {
        return;
      }
      var loc := st.Lookup(t.name);
      if loc == -1 {
        assert FindInScope(st.scopes, st.Top().value, t.name).None?;
        InsertAtNextLocation(st, t.name, t.lineno, t);
        if t.kind == ParamK(NonArrParamK) {
          t.expType := Integer;
        } else {
          t.expType := IntegerArray;
        }
      }
    }

    /** The success branch of insertNode on a function declaration: insert
        the function under the next location, open a scope named after it
        for its parameters and body, raise the flag so that the body reuses
        that scope, and read the declared type off the type specifier
        (`int` gives Integer, anything else Void). */
    method OpenFunction(t: TreeNode)
      requires Valid() && st.scopeStack != [] && t.kind == DeclK(FuncK) && t.child[0] != null
      requires !Declares(st.scopes[st.Top().value], t.name) && funcName == t.name
      modifies this`inScopeBefore, st, t`expType
      ensures Valid()
      ensures var top, loc := old(st.Top()).value, old(st.location[|st.location| - 1]);
        && st.scopes == Prepended(old(st.scopes), top, BucketRec(t.name, t, [t.lineno], loc))
                        + [Created(t.name, old(st.Top()), old(|st.scopeStack|))]
        && st.scopeStack == old(st.scopeStack) + [old(|st.scopes|)]
        && st.location == old(st.location)[|old(st.location)| - 1 := loc + 1] + [0]
      ensures inScopeBefore && t.expType == (if t.child[0].typeSpec == INT then Integer else Void)
      ensures Extends(old(st.scopes), st.scopes)
    {
      FindInScopeDeclares(st.scopes, st.Top().value, t.name);
      InsertAtNextLocation(st, funcName, t.lineno, t);
      ghost var inserted := st.scopes;
      var scope := st.Create(funcName);
      ExtendsTrans(old(st.scopes), inserted, st.scopes);
      st.Push(scope);
      inScopeBefore := true;
      if t.child[0].typeSpec == INT {
        t.expType := Integer;
      } else {
        t.expType := Void;
      }
    }


    /** insertNode, the pre-order hook of pass 1. */
    method InsertNode(t: TreeNode)
      requires Valid() && ShapedAs(t.kind, t.child, t.sibling) && st.scopeStack != []
      requires inScopeBefore ==> Flagged(t) || IsBody(t)
      modifies this`funcName, this`inScopeBefore, this`diags, this`error, st, t`expType, t`scope
      ensures Valid() && Accumulated() && |old(st.scopes)| <= |st.scopes| && Extends(old(st.scopes), st.scopes)
      ensures t.kind == StmtK(CompK) ==>
        && !inScopeBefore && st.Top() == Some(t.scope)
        && st.scopeStack == if old(inScopeBefore) then old(st.scopeStack) else old(st.scopeStack) + [t.scope]
      ensures t.kind == DeclK(FuncK) ==>
        if inScopeBefore then PushedOne(old(st.scopeStack), st.scopeStack) else st.scopeStack == old(st.scopeStack)
      ensures t.kind != StmtK(CompK) && t.kind != DeclK(FuncK) ==>
        st.scopeStack == old(st.scopeStack) && inScopeBefore == old(inScopeBefore)
    {
      ExtendsRefl(st.scopes);
      match t.kind
      case StmtK(CompK) =>
        EnterCompound(t);
      case ExpK(k) =>
        if k == IdK || k == ArrIdK || k == CallK {
          ResolveUse(t);
        }
      case DeclK(FuncK) =>
        DeclareFunction(t);
      case DeclK(_) =>
        DeclareVariable(t);
      case ParamK(_) =>
        DeclareParam(t);
      case _ =>
    }

    /** afterInsertNode, the post-order hook of pass 1: a compound
        statement closes the top scope. */
    method AfterInsertNode(t: TreeNode)
      requires Valid()
      modifies st
      ensures Valid() && st.scopes == old(st.scopes)
      ensures t.kind == StmtK(CompK) ==> st.scopeStack == Popped(old(st.scopeStack))
      ensures t.kind != StmtK(CompK) ==> st.scopeStack == old(st.scopeStack)
    {
      if t.kind == StmtK(CompK) {
        st.Pop();
      }
    }

    /** traverse(t, insertNode, afterInsertNode): each node of the
        sibling list from `t`, in order.  The stack is left as it was
        found, except that the body of a function whose scope the flag
        says is open closes that scope; the flag is down afterwards
        exactly when that body was visited.  Every compound statement
        visited holds a valid scope index afterwards. */
    method BuildTraverse(t: TreeNode?)
      requires Valid() && (t != null ==> t.Valid() && st.scopeStack != [])
      requires inScopeBefore ==> Flagged(t) || IsBody(t)
      modifies this`funcName, this`inScopeBefore, this`diags, this`error, st, ReprOf(t)`expType, ReprOf(t)`scope
      ensures Valid() && Accumulated() && |old(st.scopes)| <= |st.scopes| && Attached(t, |st.scopes|)
      ensures Extends(old(st.scopes), st.scopes)
      ensures inScopeBefore == (old(inScopeBefore) && !IsBody(t))
      ensures st.scopeStack == if old(inScopeBefore) && IsBody(t) then Popped(old(st.scopeStack)) else old(st.scopeStack)
      decreases ReprOf(t), 4
    {
      if t == null {
        ExtendsRefl(st.scopes);
        return;
      }
      BuildNode(t);
      ghost var n, mid := |st.scopes|, st.scopes;
      BuildTraverse(t.sibling);
      AttachedJoin(t, n, |st.scopes|);
      ExtendsTrans(old(st.scopes), mid, st.scopes);
    }

    /** One node in pass 1: the pre-order hook, the three child slots in
        order, the post-order hook. */
    method BuildNode(t: TreeNode)
      requires Valid() && t.Valid() && st.scopeStack != []
      requires inScopeBefore ==> Flagged(t) || IsBody(t)
      modifies this`funcName, this`inScopeBefore, this`diags, this`error, st, t`expType, t`scope
      modifies ReprOf(t.child[0])`expType, ReprOf(t.child[0])`scope
      modifies ReprOf(t.child[1])`expType, ReprOf(t.child[1])`scope, ReprOf(t.child[2])`expType, ReprOf(t.child[2])`scope
      ensures Valid() && Accumulated() && |old(st.scopes)| <= |st.scopes| && AttachedHere(t, |st.scopes|)
      ensures Extends(old(st.scopes), st.scopes)
      ensures inScopeBefore == (old(inScopeBefore) && !IsBody(t))
      ensures st.scopeStack == if old(inScopeBefore) && IsBody(t) then Popped(old(st.scopeStack)) else old(st.scopeStack)
      decreases t.Repr, 3
    {
      InsertNode(t);
      ghost var mid := st.scopes;
      BuildBelow(t);
      AttachedHereOf(t, |st.scopes|);
      ExtendsTrans(old(st.scopes), mid, st.scopes);
    }

    /** The child slots of `t` and then the post-order hook on `t`, in
        pass 1. */
    method BuildBelow(t: TreeNode)
      requires Valid() && t.Valid() && st.scopeStack != []
      requires inScopeBefore ==> Flagged(t.child[0]) && Flagged(t.child[1]) && (Flagged(t.child[2]) || IsBody(t.child[2]))
      modifies this`funcName, this`inScopeBefore, this`diags, this`error, st, ReprOf(t.child[0])`expType, ReprOf(t.child[0])`scope
      modifies ReprOf(t.child[1])`expType, ReprOf(t.child[1])`scope, ReprOf(t.child[2])`expType, ReprOf(t.child[2])`scope
      ensures Valid() && Accumulated() && |old(st.scopes)| <= |st.scopes|
      ensures Attached(t.child[0], |st.scopes|) && Attached(t.child[1], |st.scopes|) && Attached(t.child[2], |st.scopes|)
      ensures Extends(old(st.scopes), st.scopes)
      ensures inScopeBefore == (old(inScopeBefore) && !IsBody(t.child[2]))
      ensures var visited := if old(inScopeBefore) && IsBody(t.child[2]) then Popped(old(st.scopeStack)) else old(st.scopeStack);
        st.scopeStack == if t.kind == StmtK(CompK) then Popped(visited) else visited
      decreases t.Repr, 2
    {
      BuildChildren(t);
      AfterInsertNode(t);
    }

    /** The three child slots of `t`, in order, in pass 1. */
    method BuildChildren(t: TreeNode)
      requires Valid() && t.Valid() && st.scopeStack != []
      requires inScopeBefore ==> Flagged(t.child[0]) && Flagged(t.child[1]) && (Flagged(t.child[2]) || IsBody(t.child[2]))
      modifies this`funcName, this`inScopeBefore, this`diags, this`error, st, ReprOf(t.child[0])`expType, ReprOf(t.child[0])`scope
      modifies ReprOf(t.child[1])`expType, ReprOf(t.child[1])`scope, ReprOf(t.child[2])`expType, ReprOf(t.child[2])`scope
      ensures Valid() && Accumulated() && |old(st.scopes)| <= |st.scopes|
      ensures Attached(t.child[0], |st.scopes|) && Attached(t.child[1], |st.scopes|) && Attached(t.child[2], |st.scopes|)
      ensures Extends(old(st.scopes), st.scopes)
      ensures inScopeBefore == (old(inScopeBefore) && !IsBody(t.child[2]))
      ensures st.scopeStack == if old(inScopeBefore) && IsBody(t.child[2]) then Popped(old(st.scopeStack)) else old(st.scopeStack)
      decreases t.Repr, 1
    {
      BuildTraverse(t.child[0]);
      ghost var n, mid := |st.scopes|, st.scopes;
      BuildLastChildren(t);
      AttachedGrows(t.child[0], n, |st.scopes|);
      ExtendsTrans(old(st.scopes), mid, st.scopes);
    }

    /** The second and third child slots of `t`, in order, in pass 1. */
    method BuildLastChildren(t: TreeNode)
      requires Valid() && t.Valid() && st.scopeStack != []
      requires inScopeBefore ==> Flagged(t.child[1]) && (Flagged(t.child[2]) || IsBody(t.child[2]))
      modifies this`funcName, this`inScopeBefore, this`diags, this`error, st
      modifies ReprOf(t.child[1])`expType, ReprOf(t.child[1])`scope, ReprOf(t.child[2])`expType, ReprOf(t.child[2])`scope
      ensures Valid() && Accumulated() && |old(st.scopes)| <= |st.scopes|
      ensures Attached(t.child[1], |st.scopes|) && Attached(t.child[2], |st.scopes|)
      ensures Extends(old(st.scopes), st.scopes)
      ensures inScopeBefore == (old(inScopeBefore) && !IsBody(t.child[2]))
      ensures st.scopeStack == if old(inScopeBefore) && IsBody(t.child[2]) then Popped(old(st.scopeStack)) else old(st.scopeStack)
      decreases t.Repr, 0
    {
      BuildTraverse(t.child[1]);
      ghost var n, mid := |st.scopes|, st.scopes;
      BuildTraverse(t.child[2]);
      AttachedGrows(t.child[1], n, |st.scopes|);
      ExtendsTrans(old(st.scopes), mid, st.scopes);
    }

    // -------------------------------------------------------------------
    // Pass 2.

    /** beforeCheckNode, the pre-order hook of pass 2: a function
        declaration names the current function; a compound statement
        re-enters the scope pass 1 recorded on it. */
    method BeforeCheckNode(t: TreeNode)
      requires Valid() && (t.kind == StmtK(CompK) ==> t.scope < |st.scopes|)
      modifies this`funcName, st
      ensures Valid() && st.scopes == old(st.scopes)
      ensures funcName == if t.kind == DeclK(FuncK) then t.name else old(funcName)
      ensures t.kind == StmtK(CompK) ==>
        st.scopeStack == old(st.scopeStack) + [t.scope] && st.location == old(st.location) + [0]
      ensures t.kind != StmtK(CompK) ==> st.scopeStack == old(st.scopeStack) && st.location == old(st.location)
    {
      if t.kind == DeclK(FuncK) {
        funcName := t.name;
      } else if t.kind == StmtK(CompK) {
        st.Push(t.scope);
      }
    }

    /** checkNode on an if, if-else or while statement: a missing
        condition is reported at the statement, a Void one at the
        condition; any other condition, an array included, passes. */
    method CheckCondition(t: TreeNode)
      requires Valid() && (t.kind == StmtK(IfK) || t.kind == StmtK(IfEK) || t.kind == StmtK(IterK))
      modifies this`diags, this`error
      ensures Valid() && (diags == old(diags) <==> !ConditionRejected(ConditionOf(t)))
      ensures t.child[0] == null ==> Reported([Diagnostic(t.lineno, TypeError(ExpectedExpression))])
      ensures t.child[0] != null ==>
        Reported(if t.child[0].expType != Void then []
                 else [Diagnostic(t.child[0].lineno, TypeError(if t.kind == StmtK(IterK) then InvalidLoopCondition else InvalidIfCondition))])
    {
      if t.child[0] == null {
        ReportTypeError(t.lineno, ExpectedExpression);
      } else if t.child[0].expType == Void {
        ReportTypeError(t.child[0].lineno, if t.kind == StmtK(IterK) then InvalidLoopCondition else InvalidIfCondition);
      }
    }

    /** checkNode on a return statement: the function named by `funcName`
        is looked up from the top scope and the value checked against its
        type (an indexed element counting as Integer). */
    method CheckReturn(t: TreeNode)
      requires Valid() && t.kind == StmtK(RetK)
      modifies this`diags, this`error
      ensures Valid()
      ensures st.Declaration(funcName).None? ==> Reported([])
      ensures st.Declaration(funcName).Some? ==>
        Reported(if ReturnRejected(st.Declaration(funcName).value.expType, ReturnValueOf(t))
                 then [Diagnostic(t.lineno, TypeError(InvalidReturnType))] else [])
      ensures st.Declaration(funcName).Some? && ReturnValueOf(t) != Some(Operand(IntegerArray, true)) ==>
        Reported(if ReturnRejectedAsWritten(st.Declaration(funcName).value.expType, ReturnValueOf(t))
                 then [Diagnostic(t.lineno, TypeError(InvalidReturnType))] else [])
    {
      var p := st.GetBucket(funcName);
      if p.Some? {
        var retFunc := st.scopes[p.value.scope].hashTable[p.value.bucket][p.value.index].treeNode;
        ReturnCorrectionOnlyForElements(retFunc.expType, ReturnValueOf(t));
        if ReturnRejected(retFunc.expType, ReturnValueOf(t)) {
          ReportTypeError(t.lineno, InvalidReturnType);
        }
      }
    }

    /** checkNode on an assignment: rejected at the left side when the
        assignment rule fails, which leaves the node's type as it was;
        otherwise the node takes the left side's type. */
    method CheckAssign(t: TreeNode)
      requires Valid() && ShapedAs(t.kind, t.child, t.sibling) && t.kind == ExpK(AssignK)
      modifies this`diags, this`error, t`expType
      ensures Valid()
      ensures var r := AssignType(OperandOf(t.child[0]), OperandOf(t.child[1]));
        && (r.None? ==> Reported([Diagnostic(t.child[0].lineno, TypeError(InvalidVariableType))]) && t.expType == old(t.expType))
        && (r.Some? ==> Reported([]) && t.expType == r.value)
    {
      var r := AssignType(OperandOf(t.child[0]), OperandOf(t.child[1]));
      if r.None? {
        ReportTypeError(t.child[0].lineno, InvalidVariableType);
      } else {
        t.expType := r.value;
      }
    }

    /** checkNode on a binary operator: rejected at the operator when the
        operator rule fails, which leaves the node's type as it was;
        otherwise the node is Integer. */
    method CheckOp(t: TreeNode)
      requires Valid() && ShapedAs(t.kind, t.child, t.sibling) && t.kind == ExpK(OpK)
      modifies this`diags, this`error, t`expType
      ensures Valid()
      ensures var r := OpType(OperandOf(t.child[0]), OperandOf(t.child[1]));
        && (r.None? ==> Reported([Diagnostic(t.lineno, TypeError(InvalidExpression))]) && t.expType == old(t.expType))
        && (r.Some? ==> Reported([]) && t.expType == Integer)
    {
      var r := OpType(OperandOf(t.child[0]), OperandOf(t.child[1]));
      if r.None? {
        ReportTypeError(t.lineno, InvalidExpression);
      } else {
        t.expType := Integer;
      }
    }

    /** checkNode on an identifier or an indexed identifier: a name
        visible nowhere is left alone (pass 1 reported it); indexing a
        symbol that is not an array is rejected at the node; otherwise the
        node takes the declaring node's type. */
    method CheckIdentifier(t: TreeNode)
      requires Valid() && (t.kind == ExpK(IdK) || t.kind == ExpK(ArrIdK))
      modifies this`diags, this`error, t`expType
      ensures Valid()
      ensures var d := old(st.Declaration(t.name));
        && (d.None? ==> Reported([]) && t.expType == old(t.expType))
        && (d.Some? && t.kind == ExpK(ArrIdK) && !Indexable(d.value.kind) ==>
              Reported([Diagnostic(t.lineno, TypeError(InvalidExpression))]) && t.expType == old(t.expType))
        && (d.Some? && (t.kind == ExpK(IdK) || Indexable(d.value.kind)) ==>
              Reported([]) && t.expType == old(d.value.expType))
    {
      var p := st.GetBucket(t.name);
      if p.None? {
        return;
      }
      var symbolNode := st.scopes[p.value.scope].hashTable[p.value.bucket][p.value.index].treeNode;
      if t.kind == ExpK(ArrIdK) && !Indexable(symbolNode.kind) {
        ReportTypeError(t.lineno, InvalidExpression);
      } else {
        t.expType := symbolNode.expType;
      }
    }

    /** checkNode on a call: a name visible nowhere is left alone; a name
        that is not a function is rejected at the call; otherwise the
        arguments are checked against the parameters, reporting at most
        one error, and the call takes the function's type whatever the
        outcome. */
    method CheckCall(t: TreeNode)
      requires Valid() && (t.child[0] != null ==> t.child[0].Valid())
      modifies this`diags, this`error, t`expType
      ensures Valid()
      ensures var d := old(st.Declaration(t.name));
        && (d.None? ==> Reported([]) && t.expType == old(t.expType))
        && (d.Some? && d.value.kind != DeclK(FuncK) ==>
              Reported([Diagnostic(t.lineno, TypeError(InvalidExpression))]) && t.expType == old(t.expType))
        && (d.Some? && d.value.kind == DeclK(FuncK) ==>
              && Reported(old(CallDiagnosticsOf(t.child[0], d.value.child[1], t.lineno)))
              && t.expType == d.value.expType)
    {
      var decl := ResolveCall(t);
      CheckResolvedCall(t, decl);
    }

    /** The lookup that opens checkNode on a call: the declaring node
        get_bucket finds for the called name (None for NULL).  Looking up
        writes nothing, so the argument check of a call to it still has
        the diagnostics it had before. */
    method ResolveCall(t: TreeNode) returns (decl: Option<TreeNode>)
      requires st.Valid()
      ensures decl == st.Declaration(t.name)
      ensures decl.Some? ==>
        old(CallDiagnosticsOf(t.child[0], decl.value.child[1], t.lineno)) == CallDiagnosticsOf(t.child[0], decl.value.child[1], t.lineno)
    {
      var p := st.GetBucket(t.name);
      decl := if p.None? then None else Some(st.scopes[p.value.scope].hashTable[p.value.bucket][p.value.index].treeNode);
      if decl.Some? {
        ghost var args := ArgNodes(t.child[0]);
        ghost var params := ParamNodes(decl.value.child[1], |args| + 1);
        assert old(Operands(args)) == Operands(args);
        assert old(Params(params)) == Params(params);
      }
    }

    /** checkNode on a call once get_bucket has answered `decl` (None for
        NULL): the three outcomes of CheckCall. */
    method CheckResolvedCall(t: TreeNode, decl: Option<TreeNode>)
      requires Valid() && (t.child[0] != null ==> t.child[0].Valid())
      modifies this`diags, this`error, t`expType
      ensures Valid()
      ensures decl.None? ==> Reported([]) && t.expType == old(t.expType)
      ensures decl.Some? && decl.value.kind != DeclK(FuncK) ==>
        Reported([Diagnostic(t.lineno, TypeError(InvalidExpression))]) && t.expType == old(t.expType)
      ensures decl.Some? && decl.value.kind == DeclK(FuncK) ==>
        && Reported(old(CallDiagnosticsOf(t.child[0], decl.value.child[1], t.lineno)))
        && t.expType == decl.value.expType
    {
      if decl.None? {
        return;
      }
      var funcNode := decl.value;
      if funcNode.kind != DeclK(FuncK) {
        ReportTypeError(t.lineno, InvalidExpression);
        return;
      }
      CheckCallTo(t, funcNode);
    }

    /** The part of checkNode on a call once the name resolves to the
        function declaration `funcNode`. */
    method CheckCallTo(t: TreeNode, funcNode: TreeNode)
      requires Valid() && (t.child[0] != null ==> t.child[0].Valid()) && funcNode.kind == DeclK(FuncK)
      modifies this`diags, this`error, t`expType
      ensures Valid()
      ensures Reported(old(CallDiagnosticsOf(t.child[0], funcNode.child[1], t.lineno)))
      ensures t.expType == funcNode.expType
    {
      var verdict, line := MatchArguments(t.child[0], funcNode.child[1], t.lineno);
      if verdict != CallOk {
        ReportTypeError(line, InvalidFunctionCall);
      }
      t.expType := funcNode.expType;
    }

    /** checkNode on a variable or array declaration: a `void` element
        type is reported. */
    method CheckVarDecl(t: TreeNode)
      requires Valid() && ShapedAs(t.kind, t.child, t.sibling) && (t.kind == DeclK(VarK) || t.kind == DeclK(ArrVarK))
      modifies this`diags, this`error
      ensures Valid()
      ensures Reported(if t.child[0].typeSpec == VOID then [Diagnostic(t.lineno, VoidVariable(t.name))] else [])
    {
      if t.child[0].typeSpec == VOID {
        ReportVoidVariable(t, t.name);
      }
    }

    /** checkNode, the post-order hook of pass 2: a compound statement
        closes its scope, a constant is Integer, and every other node is
        checked by its rule. */
    method CheckNode(t: TreeNode)
      requires Valid() && ShapedAs(t.kind, t.child, t.sibling) && (t.child[0] != null ==> t.child[0].Valid())
      modifies this`diags, this`error, st, t`expType
      ensures Valid() && Accumulated() && st.scopes == old(st.scopes)
      ensures t.kind == StmtK(CompK) ==>
        st.scopeStack == Popped(old(st.scopeStack)) && st.location == Popped(old(st.location))
      ensures t.kind != StmtK(CompK) ==> st.scopeStack == old(st.scopeStack) && st.location == old(st.location)
      ensures t.kind == ExpK(ConstK) ==> t.expType == Integer && Reported([])
    {
      match t.kind
      case StmtK(_) =>
        CheckStmt(t);
      case ExpK(_) =>
        CheckExp(t);
      case DeclK(FuncK) =>
      case DeclK(_) =>
        CheckVarDecl(t);
      case _ =>
    }

    /** checkNode on a statement node. */
    method CheckStmt(t: TreeNode)
      requires Valid() && t.kind.StmtK?
      modifies this`diags, this`error, st
      ensures Valid() && Accumulated() && st.scopes == old(st.scopes)
      ensures t.kind == StmtK(CompK) ==>
        st.scopeStack == Popped(old(st.scopeStack)) && st.location == Popped(old(st.location))
      ensures t.kind != StmtK(CompK) ==> st.scopeStack == old(st.scopeStack) && st.location == old(st.location)
    {
      match t.kind.stmt
      case CompK =>
        st.Pop();
      case RetK =>
        CheckReturn(t);
      case _ =>
        CheckCondition(t);
    }

    /** checkNode on an expression node: the symbol table is only read. */
    method CheckExp(t: TreeNode)
      requires Valid() && t.kind.ExpK?
      requires ShapedAs(t.kind, t.child, t.sibling) && (t.child[0] != null ==> t.child[0].Valid())
      modifies this`diags, this`error, t`expType
      ensures Valid() && Accumulated()
      ensures t.kind == ExpK(ConstK) ==> t.expType == Integer && Reported([])
    {
      match t.kind.exp
      case AssignK =>
        CheckAssign(t);
      case OpK =>
        CheckOp(t);
      case ConstK =>
        t.expType := Integer;
      case CallK =>
        CheckCall(t);
      case _ =>
        CheckIdentifier(t);
    }

    /** traverse(t, beforeCheckNode, checkNode): each node of the sibling
        list from `t`, in order.  Every scope pushed is popped, so the
        stack and the counters are left as they were found, and the scope
        list is not touched. */
    method CheckTraverse(t: TreeNode?)
      requires Valid() && (t != null ==> t.Valid() && Attached(t, |st.scopes|))
      modifies this`funcName, this`diags, this`error, st, ReprOf(t)`expType
      ensures Valid() && Accumulated()
      ensures st.scopes == old(st.scopes) && st.scopeStack == old(st.scopeStack) && st.location == old(st.location)
      decreases ReprOf(t), 4
    {
      if t == null {
        return;
      }
      AttachedParts(t, |st.scopes|);
      CheckOne(t);
      CheckTraverse(t.sibling);
    }

    /** One node in pass 2: the pre-order hook, the three child slots in
        order, the post-order hook. */
    method CheckOne(t: TreeNode)
      requires Valid() && t.Valid() && (t.kind == StmtK(CompK) ==> t.scope < |st.scopes|)
      requires Attached(t.child[0], |st.scopes|) && Attached(t.child[1], |st.scopes|) && Attached(t.child[2], |st.scopes|)
      modifies this`funcName, this`diags, this`error, st, t`expType
      modifies ReprOf(t.child[0])`expType, ReprOf(t.child[1])`expType, ReprOf(t.child[2])`expType
      ensures Valid() && Accumulated()
      ensures st.scopes == old(st.scopes) && st.scopeStack == old(st.scopeStack) && st.location == old(st.location)
      decreases t.Repr, 3
    {
      BeforeCheckNode(t);
      CheckBelow(t);
    }

    /** The child slots of `t` and then the post-order hook on `t`, in
        pass 2. */
    method CheckBelow(t: TreeNode)
      requires Valid() && t.Valid()
      requires Attached(t.child[0], |st.scopes|) && Attached(t.child[1], |st.scopes|) && Attached(t.child[2], |st.scopes|)
      modifies this`diags, this`error, this`funcName, st, t`expType
      modifies ReprOf(t.child[0])`expType, ReprOf(t.child[1])`expType, ReprOf(t.child[2])`expType
      ensures Valid() && Accumulated() && st.scopes == old(st.scopes)
      ensures t.kind == StmtK(CompK) ==>
        st.scopeStack == Popped(old(st.scopeStack)) && st.location == Popped(old(st.location))
      ensures t.kind != StmtK(CompK) ==> st.scopeStack == old(st.scopeStack) && st.location == old(st.location)
      decreases t.Repr, 2
    {
      CheckChildren(t);
      CheckNode(t);
    }

    /** The three child slots of `t`, in order, in pass 2. */
    method CheckChildren(t: TreeNode)
      requires Valid() && t.Valid()
      requires Attached(t.child[0], |st.scopes|) && Attached(t.child[1], |st.scopes|) && Attached(t.child[2], |st.scopes|)
      modifies this`funcName, this`diags, this`error, st
      modifies ReprOf(t.child[0])`expType, ReprOf(t.child[1])`expType, ReprOf(t.child[2])`expType
      ensures Valid() && Accumulated()
      ensures st.scopes == old(st.scopes) && st.scopeStack == old(st.scopeStack) && st.location == old(st.location)
      decreases t.Repr, 1
    {
      CheckTraverse(t.child[0]);
      CheckLastChildren(t);
    }

    /** The second and third child slots of `t`, in order, in pass 2. */
    method CheckLastChildren(t: TreeNode)
      requires Valid() && t.Valid()
      requires Attached(t.child[1], |st.scopes|) && Attached(t.child[2], |st.scopes|)
      modifies this`funcName, this`diags, this`error, st
      modifies ReprOf(t.child[1])`expType, ReprOf(t.child[2])`expType
      ensures Valid() && Accumulated()
      ensures st.scopes == old(st.scopes) && st.scopeStack == old(st.scopeStack) && st.location == old(st.location)
      decreases t.Repr, 0
    {
      CheckTraverse(t.child[1]);
      CheckTraverse(t.child[2]);
    }

    // -------------------------------------------------------------------
    // The two passes.

    /** The first three steps of buildSymtab: create the global scope,
        push it, and declare the builtins in it, `input` at location 0 and
        `output` at location 1. */
    method OpenGlobalScope(lineno: int) returns (ghost input: TreeNode, ghost output: TreeNode)
      requires Valid()
      modifies this`globalScope, st
      ensures Valid() && globalScope == Some(old(|st.scopes|))
      ensures st.scopeStack == old(st.scopeStack) + [old(|st.scopes|)]
      ensures |st.scopes| == old(|st.scopes|) + 1
      ensures var g := old(|st.scopes|);
        && st.scopes[g].funcName == "global" && st.scopes[g].parent == old(st.Top())
        && st.scopes[g].nestedLevel == old(|st.scopeStack|)
        && FindInScope(st.scopes, g, "input").Some? && FindInScope(st.scopes, g, "output").Some?
        && RecordAt(st.scopes, FindInScope(st.scopes, g, "input").value) == BucketRec("input", input, [0], 0)
        && RecordAt(st.scopes, FindInScope(st.scopes, g, "output").value) == BucketRec("output", output, [0], 1)
      ensures fresh(input) && fresh(output) && IsInputNode(input) && IsOutputNode(output)
      ensures Extends(old(st.scopes), st.scopes)
    {
      var g := EnterGlobalScope();
      ghost var before, beforeLocation := st.scopes, st.location;
      assert st.Top() == Some(g) && beforeLocation[|beforeLocation| - 1] == 0;
      input, output := InsertIOFuncNode(st, lineno);
      BuiltinsDeclared(before, beforeLocation, g, input, output, st.scopes, st.location);
      ExtendsTrans(old(st.scopes), before, st.scopes);
    }

    /** The first two steps of buildSymtab: create the global scope and
        push it; nothing is declared in it yet. */
    method EnterGlobalScope() returns (g: nat)
      requires Valid()
      modifies this`globalScope, st
      ensures Valid() && g == old(|st.scopes|) && globalScope == Some(g)
      ensures st.scopes == old(st.scopes) + [Created("global", old(st.Top()), old(|st.scopeStack|))]
      ensures st.scopeStack == old(st.scopeStack) + [g] && st.location == old(st.location) + [0]
      ensures FindInScope(st.scopes, g, "input").None? && FindInScope(st.scopes, g, "output").None?
      ensures Extends(old(st.scopes), st.scopes)
    {
      g := st.Create("global");
      globalScope := Some(g);
      st.Push(g);
    }

    /** buildSymtab: open the global scope with the builtins, run pass 1
        over the program, close the global scope.  The stack ends as it
        began, no function scope is left waiting for a body, and every
        compound statement of the program holds a valid scope index, which
        is what pass 2 needs.  Pass 1 only adds to the table, so the
        global scope still declares `input` at location 0 and `output` at
        location 1, with their own declaring nodes, whatever the program
        declares. */
    method BuildSymtab(syntaxTree: TreeNode?, lineno: int) returns (ghost input: TreeNode, ghost output: TreeNode)
      requires Valid() && !inScopeBefore && (syntaxTree != null ==> syntaxTree.Valid())
      modifies this`globalScope, this`funcName, this`inScopeBefore, this`diags, this`error, st
      modifies ReprOf(syntaxTree)`expType, ReprOf(syntaxTree)`scope
      ensures Valid() && Accumulated() && !inScopeBefore
      ensures globalScope == Some(old(|st.scopes|)) && old(|st.scopes|) < |st.scopes|
      ensures st.scopeStack == old(st.scopeStack)
      ensures Attached(syntaxTree, |st.scopes|) && Extends(old(st.scopes), st.scopes)
      ensures BuiltinsAt(st.scopes, old(|st.scopes|), input, output) && fresh(input) && fresh(output)
    {
      input, output := OpenGlobalScope(lineno);
      ghost var withBuiltins := st.scopes;
      assert BuiltinsAt(withBuiltins, old(|st.scopes|), input, output);
      BuildInScope(syntaxTree);
      BuiltinsSurvive(withBuiltins, st.scopes, old(|st.scopes|), input, output);
      ExtendsTrans(old(st.scopes), withBuiltins, st.scopes);
    }

    /** The last two steps of buildSymtab: pass 1 over the program inside
        the open scope, then close that scope. */
    method BuildInScope(syntaxTree: TreeNode?)
      requires Valid() && !inScopeBefore && st.scopeStack != [] && (syntaxTree != null ==> syntaxTree.Valid())
      modifies this`funcName, this`inScopeBefore, this`diags, this`error, st
      modifies ReprOf(syntaxTree)`expType, ReprOf(syntaxTree)`scope
      ensures Valid() && Accumulated() && !inScopeBefore
      ensures |old(st.scopes)| <= |st.scopes| && st.scopeStack == Popped(old(st.scopeStack))
      ensures Attached(syntaxTree, |st.scopes|) && Extends(old(st.scopes), st.scopes)
    {
      BuildTraverse(syntaxTree);
      st.Pop();
    }

    /** typeCheck: re-enter the global scope, run pass 2 over the program,
        leave it again; the symbol table ends as it began. */
    method TypeCheck(syntaxTree: TreeNode?)
      requires Valid() && globalScope.Some?
      requires syntaxTree != null ==> syntaxTree.Valid() && Attached(syntaxTree, |st.scopes|)
      modifies this`funcName, this`diags, this`error, st, ReprOf(syntaxTree)`expType
      ensures Valid() && Accumulated()
      ensures st.scopes == old(st.scopes) && st.scopeStack == old(st.scopeStack) && st.location == old(st.location)
    {
      st.Push(globalScope.value);
      CheckTraverse(syntaxTree);
      st.Pop();
    }
  }
}
