/** Syntax-tree nodes: the record every phase of the compiler shares, and
    the node constructors of util.c.  The analyser writes two fields of a
    node in place (its expression type and, on a compound statement, its
    scope); the links and kinds the parser sets are fixed, so the tree
    invariant depends on no mutable field. */
module Tree {

  /** Number of child slots of every node. */
  const MAXCHILDREN: nat := 3

  datatype StmtKind = IfK | IfEK | IterK | RetK | CompK
  datatype ExpKind = AssignK | OpK | ConstK | IdK | ArrIdK | CallK
  datatype DeclKind = FuncK | VarK | ArrVarK
  datatype ParamKind = ArrParamK | NonArrParamK

  /** The node kind together with its sub-kind (C: `nodekind` plus the
      `kind` union).  A type-specifier node is created with a declaration
      kind, as `newTypeNode(FuncK)` shows. */
  datatype NodeKind =
    | StmtK(stmt: StmtKind)
    | ExpK(exp: ExpKind)
    | DeclK(decl: DeclKind)
    | ParamK(param: ParamKind)
    | TypeK(typeKind: DeclKind)

  /** The static types of the language. */
  datatype ExpType = Void | Integer | IntegerArray

  /** The tokens a node can carry: a type specifier (`attr.type`) or an
      operator (`attr.op`). */
  datatype TokenType = INT | VOID | PLUS | MINUS | TIMES | OVER | LT | LE | GT | GE | EQ | NE

  /** The fixed array of child slots; `null` is an empty slot. */
  type Children = s: seq<TreeNode?> | |s| == MAXCHILDREN witness [null, null, null]

  /** `slots` and `next` can be linked under a new node of kind `k`: each
      heads a tree of its own, no two of them share a node, and together
      they have the shape the parser gives a node of kind `k`. */
  ghost predicate Linkable(k: NodeKind, slots: Children, next: TreeNode?)
  {
    && (slots[0] != null ==> slots[0].Valid())
    && (slots[1] != null ==> slots[1].Valid())
    && (slots[2] != null ==> slots[2].Valid())
    && (next != null ==> next.Valid())
    && ReprOf(slots[0]) !! ReprOf(slots[1])
    && ReprOf(slots[0]) !! ReprOf(slots[2])
    && ReprOf(slots[1]) !! ReprOf(slots[2])
    && ReprOf(slots[0]) !! ReprOf(next)
    && ReprOf(slots[1]) !! ReprOf(next)
    && ReprOf(slots[2]) !! ReprOf(next)
    && ShapedAs(k, slots, next)
  }

  /** The slots the analyser dereferences without a NULL check are
      filled: operands of assignments and binary operators, the type
      specifier of declarations and parameters, and the parameter list
      and body of a function. */
  ghost predicate ShapedAs(k: NodeKind, slots: Children, next: TreeNode?)
  {
    && (k == ExpK(AssignK) || k == ExpK(OpK) ==> slots[0] != null && slots[1] != null)
    && (k == DeclK(FuncK) ==>
          && slots[0] != null && slots[0].kind.TypeK?
          && (slots[1] == null || slots[1].kind.ParamK?)
          && IsBody(slots[2]))
    && (k == DeclK(VarK) || k == DeclK(ArrVarK) ==> slots[0] != null)
    && (k.ParamK? ==>
          && slots[0] != null && slots[0].kind.TypeK?
          && slots[1] == null && slots[2] == null
          && (next == null || next.kind.ParamK?))
    && (k.TypeK? ==> slots == [null, null, null] && next == null)
  }

  /** A syntax-tree node.  The parser links a node's child slots and its
      sibling, and sets its line, as soon as it creates the node and never
      changes them again, so here they are fixed when the node is made; the
      analyser writes only `expType` and `scope`. */
  class TreeNode {
    const child: Children
    const sibling: TreeNode?
    const lineno: int
    const kind: NodeKind
    /** `attr.name`, and `attr.arr.name` of an array declaration. */
    var name: string
    var op: TokenType
    var val: int
    /** `attr.type` of a type-specifier node, fixed when the node is
        made. */
    const typeSpec: TokenType
    /** `attr.scope` of a compound statement: an index into the scope list. */
    var scope: nat
    /** The expression type (C: `type`). */
    var expType: ExpType

    /** The nodes of the subtree rooted here, siblings included. */
    ghost const Repr: set<TreeNode>

    /** The node heads a tree (no sharing, no cycles) of the shape the
        parser builds. */
    ghost predicate Valid()
      decreases Repr
    {
      && Repr == {this} + ReprOf(child[0]) + ReprOf(child[1]) + ReprOf(child[2]) + ReprOf(sibling)
      && Owns(child[0]) && Owns(child[1]) && Owns(child[2]) && Owns(sibling)
      && ReprOf(child[0]) !! ReprOf(child[1])
      && ReprOf(child[0]) !! ReprOf(child[2])
      && ReprOf(child[1]) !! ReprOf(child[2])
      && ReprOf(child[0]) !! ReprOf(sibling)
      && ReprOf(child[1]) !! ReprOf(sibling)
      && ReprOf(child[2]) !! ReprOf(sibling)
      && (child[0] != null ==> child[0].Valid())
      && (child[1] != null ==> child[1].Valid())
      && (child[2] != null ==> child[2].Valid())
      && (sibling != null ==> sibling.Valid())
      && ShapedAs(kind, child, sibling)
    }

    /** `c` is null or a node whose subtree lies inside this one, not
        containing this node. */
    ghost predicate Owns(c: TreeNode?)
    {
      c != null ==> c in Repr && c.Repr <= Repr && this !in c.Repr
    }

    /** newStmtNode: a statement node with empty slots and no sibling. */
    constructor NewStmt(k: StmtKind, line: int)
      ensures child == [null, null, null] && sibling == null
      ensures kind == StmtK(k) && lineno == line
      ensures Repr == {this} && Valid()
    {
      child := seq(MAXCHILDREN, _ => null);
      sibling := null;
      kind := StmtK(k);
      lineno := line;
      Repr := {this};
    }

    /** newExpNode: like newStmtNode, and the type starts out Void.  Only
        an assignment or an operator needs filled slots to head a tree. */
    constructor NewExp(k: ExpKind, line: int)
      ensures child == [null, null, null] && sibling == null
      ensures kind == ExpK(k) && lineno == line && expType == Void
      ensures Repr == {this}
      ensures k != AssignK && k != OpK ==> Valid()
    {
      child := seq(MAXCHILDREN, _ => null);
      sibling := null;
      kind := ExpK(k);
      lineno := line;
      expType := Void;
      Repr := {this};
    }

    /** newDeclNode: the type is left uninitialised. */
    constructor NewDecl(k: DeclKind, line: int)
      ensures child == [null, null, null] && sibling == null
      ensures kind == DeclK(k) && lineno == line
      ensures Repr == {this}
    {
      child := seq(MAXCHILDREN, _ => null);
      sibling := null;
      kind := DeclK(k);
      lineno := line;
      Repr := {this};
    }

    /** newParamNode: the type is left uninitialised. */
    constructor NewParam(k: ParamKind, line: int)
      ensures child == [null, null, null] && sibling == null
      ensures kind == ParamK(k) && lineno == line
      ensures Repr == {this}
    {
      child := seq(MAXCHILDREN, _ => null);
      sibling := null;
      kind := ParamK(k);
      lineno := line;
      Repr := {this};
    }

    /** newTypeNode: the type is left uninitialised; the specifier the
        parser stores in it straight away is given here. */
    constructor NewType(k: DeclKind, line: int, spec: TokenType)
      ensures child == [null, null, null] && sibling == null
      ensures kind == TypeK(k) && lineno == line && typeSpec == spec
      ensures Repr == {this} && Valid()
    {
      child := seq(MAXCHILDREN, _ => null);
      sibling := null;
      kind := TypeK(k);
      lineno := line;
      typeSpec := spec;
      Repr := {this};
    }

    /** A node made by the constructor for its kind whose slots and
        sibling the caller fills straight away, as the parser does for
        every interior node and insertIOFuncNode for the builtins'
        function and parameter nodes.  It heads a tree when the parts can
        be linked. */
    constructor Linked(k: NodeKind, line: int, slots: Children, next: TreeNode?)
      ensures child == slots && sibling == next
      ensures kind == k && lineno == line
      ensures k.ExpK? ==> expType == Void
      ensures Linkable(k, slots, next) ==> Valid()
    {
      child := slots;
      sibling := next;
      kind := k;
      lineno := line;
      if k.ExpK? {
        expType := Void;
      }
      Repr := {this} + ReprOf(slots[0]) + ReprOf(slots[1]) + ReprOf(slots[2]) + ReprOf(next);
    }
  }

  /** The nodes of the subtree rooted at `c`; none for NULL. */
  ghost function ReprOf(c: TreeNode?): set<TreeNode>
  {
    if c == null then {} else c.Repr
  }

  /** `c` is a compound statement with no statement after it: the body of
      a function declaration. */
  ghost predicate IsBody(c: TreeNode?)
  {
    c != null && c.kind == StmtK(CompK) && c.sibling == null
  }

  /** Every compound statement in the subtree of `t` (siblings included)
      holds one of the first `n` scope indices (vacuous for NULL). */
  ghost predicate Attached(t: TreeNode?, n: nat)
    reads if t == null then {} else t.Repr`scope
  {
    t != null ==> forall c :: c in t.Repr && c.kind == StmtK(CompK) ==> c.scope < n
  }

  /** The compound statements of the subtree of `t` outside its siblings
      (`t` itself and its child slots) hold one of the first `n` scope
      indices. */
  ghost predicate AttachedHere(t: TreeNode, n: nat)
    reads (t.Repr - ReprOf(t.sibling))`scope
  {
    forall c :: c in t.Repr - ReprOf(t.sibling) && c.kind == StmtK(CompK) ==> c.scope < n
  }

  /** `t` and its child slots attached: the subtree outside the siblings is. */
  lemma AttachedHereOf(t: TreeNode, n: nat)
    requires t.Valid() && (t.kind == StmtK(CompK) ==> t.scope < n)
    requires Attached(t.child[0], n) && Attached(t.child[1], n) && Attached(t.child[2], n)
    ensures AttachedHere(t, n)
  {
  }

  /** The parts of an attached list are attached. */
  lemma AttachedParts(t: TreeNode, n: nat)
    requires t.Valid() && Attached(t, n)
    ensures t.kind == StmtK(CompK) ==> t.scope < n
    ensures Attached(t.child[0], n) && Attached(t.child[1], n) && Attached(t.child[2], n)
    ensures Attached(t.sibling, n)
  {
  }

  /** Attachment survives the scope list growing. */
  lemma AttachedGrows(t: TreeNode?, n: nat, m: nat)
    requires n <= m && Attached(t, n)
    ensures Attached(t, m)
  {
  }

  /** A node and its slots attached, and its siblings attached: the whole
      list is. */
  lemma AttachedJoin(t: TreeNode, n: nat, m: nat)
    requires t.Valid() && n <= m && AttachedHere(t, n) && Attached(t.sibling, m)
    ensures Attached(t, m)
  {
  }

  /** copyString: NULL stays NULL; otherwise a freshly allocated buffer
      holding the same characters. */
  method CopyString(s: array?<char>) returns (t: array?<char>)
    ensures s == null <==> t == null
    ensures s != null ==> fresh(t) && t[..] == s[..]
  {
    if s == null {
      return null;
    }
    t := new char[s.Length];
    var i := 0;
    while i < s.Length
      invariant 0 <= i <= s.Length
      invariant t[..i] == s[..i]
    {
      t[i] := s[i];
      i := i + 1;
    }
  }
}
