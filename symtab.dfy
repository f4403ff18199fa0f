/** The scoped symbol table of symtab.c: a list of every scope ever
    created, a stack of the scopes currently open with one location counter
    per level, and in each scope a chained hash table of SIZE buckets.

    Scopes are never freed, so a scope is named by its index in the scope
    list (the model's ScopeList pointer), and a record by its position
    (scope, bucket, index in the chain) (the model's BucketList pointer). */
module SymTab {
  import opened Wrappers
  import opened Tree

  /** Number of buckets of every hash table. */
  const SIZE: nat := 211
  /** The hash folds each character in after a shift left by 4 bits. */
  const SHIFT_FACTOR: nat := 16

  /** The hash of `key`, folded left to right. */
  function HashOf(key: string): (h: nat)
    ensures h < SIZE
  {
    if |key| == 0 then 0
    else (HashOf(key[..|key| - 1]) * SHIFT_FACTOR + key[|key| - 1] as int) % SIZE
  }

  /** hash: the character loop computes HashOf, a bucket index. */
  method Hash(key: string) returns (h: nat)
    ensures h == HashOf(key) && h < SIZE
  {
    var temp := 0;
    var i := 0;
    while i < |key|
      invariant 0 <= i <= |key|
      invariant temp == HashOf(key[..i])
    {
      assert key[..i + 1][..i] == key[..i];
      temp := (temp * SHIFT_FACTOR + key[i] as int) % SIZE;
      i := i + 1;
    }
    assert key[..i] == key;
    h := temp;
  }

  /** One symbol (C: BucketListRec without its `next` link): the declaring
      node, the lines the name appears on, and its memory location. */
  datatype BucketRec = BucketRec(name: string, treeNode: TreeNode, lines: seq<int>, memloc: nat)

  /** One scope (C: ScopeListRec): `parent` is the scope that was on top of
      the stack when this one was created. */
  datatype ScopeRec = ScopeRec(
    funcName: string,
    hashTable: seq<seq<BucketRec>>,
    parent: Option<nat>,
    nestedLevel: nat)

  /** Where a record sits: scope index, bucket, index in the chain. */
  datatype Pos = Pos(scope: nat, bucket: nat, index: nat)

  /** A table of SIZE empty chains. */
  function EmptyTable(): (t: seq<seq<BucketRec>>)
    ensures |t| == SIZE && forall b :: 0 <= b < SIZE ==> t[b] == []
  {
    seq(SIZE, _ => [])
  }

  /** Scope number `s` is well formed: SIZE buckets, a parent created
      before it, every record in the bucket its name hashes to, and no name
      twice in a chain. */
  ghost predicate WellFormedScope(sc: ScopeRec, s: nat)
  {
    && |sc.hashTable| == SIZE
    && (sc.parent.Some? ==> sc.parent.value < s)
    && (forall b, i :: 0 <= b < SIZE && 0 <= i < |sc.hashTable[b]| ==> HashOf(sc.hashTable[b][i].name) == b)
    && (forall b, i, j :: 0 <= b < SIZE && 0 <= i < j < |sc.hashTable[b]| ==>
          sc.hashTable[b][i].name != sc.hashTable[b][j].name)
  }

  ghost predicate ScopesOk(scopes: seq<ScopeRec>)
  {
    forall s :: 0 <= s < |scopes| ==> WellFormedScope(scopes[s], s)
  }

  predicate ValidPos(scopes: seq<ScopeRec>, p: Pos)
  {
    && p.scope < |scopes|
    && p.bucket < |scopes[p.scope].hashTable|
    && p.index < |scopes[p.scope].hashTable[p.bucket]|
  }

  function RecordAt(scopes: seq<ScopeRec>, p: Pos): BucketRec
    requires ValidPos(scopes, p)
  {
    scopes[p.scope].hashTable[p.bucket][p.index]
  }

  /** The scope holds a record for `name` in any bucket: the reference
      meaning of "declared here", independent of hashing. */
  ghost predicate Declares(sc: ScopeRec, name: string)
  {
    exists b, i :: 0 <= b < |sc.hashTable| && 0 <= i < |sc.hashTable[b]| && sc.hashTable[b][i].name == name
  }

  /** The first record of the chain named `name`. */
  function ChainIndex(chain: seq<BucketRec>, name: string): (r: Option<nat>)
    ensures r.Some? ==> r.value < |chain| && chain[r.value].name == name
    ensures r.Some? ==> forall j :: 0 <= j < r.value ==> chain[j].name != name
    ensures r.None? ==> forall j :: 0 <= j < |chain| ==> chain[j].name != name
  {
    if |chain| == 0 then None
    else if chain[0].name == name then Some(0)
    else
      match ChainIndex(chain[1..], name)
      case None => None
      case Some(k) => Some(k + 1)
  }

  /** The chain walk shared by st_insert, st_lookup_top and get_bucket:
      follow `next` until the end or a record named `name`. */
  method FindInChain(chain: seq<BucketRec>, name: string) returns (r: Option<nat>)
    ensures r == ChainIndex(chain, name)
  {
    var i := 0;
    while i < |chain| && chain[i].name != name
      invariant 0 <= i <= |chain|
      invariant forall j :: 0 <= j < i ==> chain[j].name != name
    {
      i := i + 1;
    }
    r := if i < |chain| then Some(i) else None;
  }

  /** The record for `name` in scope `s`, looked up in its hash bucket. */
  function FindInScope(scopes: seq<ScopeRec>, s: nat, name: string): (r: Option<Pos>)
    requires s < |scopes| && |scopes[s].hashTable| == SIZE
    ensures r.Some? ==> r.value.scope == s && r.value.bucket == HashOf(name)
    ensures r.Some? ==> ValidPos(scopes, r.value) && RecordAt(scopes, r.value).name == name
  {
    var h := HashOf(name);
    match ChainIndex(scopes[s].hashTable[h], name)
    case None => None
    case Some(i) => Some(Pos(s, h, i))
  }

  /** Looking in the hash bucket finds a name exactly when the scope
      declares it anywhere. */
  lemma FindInScopeDeclares(scopes: seq<ScopeRec>, s: nat, name: string)
    requires s < |scopes| && WellFormedScope(scopes[s], s)
    ensures FindInScope(scopes, s, name).Some? <==> Declares(scopes[s], name)
  {
    if Declares(scopes[s], name) {
      var b, i :| 0 <= b < |scopes[s].hashTable| && 0 <= i < |scopes[s].hashTable[b]|
                  && scopes[s].hashTable[b][i].name == name;
      assert HashOf(name) == b;
    }
  }

  /** Search scope `s`, then its parent chain; the first match wins. */
  function LocateFrom(scopes: seq<ScopeRec>, s: nat, name: string): (r: Option<Pos>)
    requires ScopesOk(scopes) && s < |scopes|
    ensures r.Some? ==> ValidPos(scopes, r.value) && RecordAt(scopes, r.value).name == name
    ensures r.Some? ==> r.value.scope <= s
    decreases s
  {
    match FindInScope(scopes, s, name)
    case Some(p) => Some(p)
    case None =>
      match scopes[s].parent
      case None => None
      case Some(q) => LocateFrom(scopes, q, name)
  }

  /** The scopes searched from `s`: `s`, its parent, its grandparent, … */
  ghost function ScopeChain(scopes: seq<ScopeRec>, s: nat): (c: seq<nat>)
    requires ScopesOk(scopes) && s < |scopes|
    ensures |c| > 0 && c[0] == s
    ensures forall k :: 0 <= k < |c| ==> c[k] < |scopes|
    ensures forall k :: 0 <= k < |c| - 1 ==> scopes[c[k]].parent == Some(c[k + 1])
    ensures scopes[c[|c| - 1]].parent.None?
    decreases s
  {
    match scopes[s].parent
    case None => [s]
    case Some(q) => [s] + ScopeChain(scopes, q)
  }

  /** No scope on the chain `c` declares `name`. */
  ghost predicate NoneDeclares(scopes: seq<ScopeRec>, c: seq<nat>, name: string)
  {
    forall k :: 0 <= k < |c| ==> c[k] < |scopes| && !Declares(scopes[c[k]], name)
  }

  /** A chain declares nothing when its first scope and the rest do not. */
  lemma NoneDeclaresCons(scopes: seq<ScopeRec>, s: nat, c: seq<nat>, name: string)
    ensures NoneDeclares(scopes, [s] + c, name) <==>
      s < |scopes| && !Declares(scopes[s], name) && NoneDeclares(scopes, c, name)
  {
    if s < |scopes| && !Declares(scopes[s], name) && NoneDeclares(scopes, c, name) {
      forall k | 0 <= k < |[s] + c| ensures ([s] + c)[k] < |scopes| && !Declares(scopes[([s] + c)[k]], name) {
        if k > 0 { assert ([s] + c)[k] == c[k - 1]; }
      }
    }
    if NoneDeclares(scopes, [s] + c, name) {
      assert ([s] + c)[0] == s;
      forall k | 0 <= k < |c| ensures c[k] < |scopes| && !Declares(scopes[c[k]], name) {
        assert c[k] == ([s] + c)[k + 1];
      }
    }
  }

  /** Lookup from `s` fails exactly when no scope on the chain from `s`
      declares the name. */
  lemma {:induction false} LocateNoneIff(scopes: seq<ScopeRec>, s: nat, name: string)
    requires ScopesOk(scopes) && s < |scopes|
    ensures LocateFrom(scopes, s, name).None? <==> NoneDeclares(scopes, ScopeChain(scopes, s), name)
    decreases s
  {
    FindInScopeDeclares(scopes, s, name);
    if scopes[s].parent.None? {
      assert ScopeChain(scopes, s) == [s] + [];
      NoneDeclaresCons(scopes, s, [], name);
    } else {
      var q := scopes[s].parent.value;
      LocateNoneIff(scopes, q, name);
      assert ScopeChain(scopes, s) == [s] + ScopeChain(scopes, q);
      NoneDeclaresCons(scopes, s, ScopeChain(scopes, q), name);
    }
  }

  /** Shadowing: a successful lookup from `s` answers from the first scope
      of the chain that declares the name. */
  lemma {:induction false} LocateInnermost(scopes: seq<ScopeRec>, s: nat, name: string)
    requires ScopesOk(scopes) && s < |scopes| && LocateFrom(scopes, s, name).Some?
    ensures exists k: nat :: FirstDeclaring(scopes, ScopeChain(scopes, s), k, LocateFrom(scopes, s, name).value.scope, name)
    decreases s
  {
    var c := ScopeChain(scopes, s);
    var p := LocateFrom(scopes, s, name).value;
    FindInScopeDeclares(scopes, s, name);
    if FindInScope(scopes, s, name).Some? {
      assert FirstDeclaring(scopes, c, 0, p.scope, name);
    } else {
      var q := scopes[s].parent.value;
      LocateInnermost(scopes, q, name);
      var c' := ScopeChain(scopes, q);
      assert c == [s] + c';
      assert p == LocateFrom(scopes, q, name).value;
      var k: nat :| FirstDeclaring(scopes, c', k, p.scope, name);
      assert c[k + 1] == c'[k];
      forall j | 0 <= j < k + 1 ensures !Declares(scopes[c[j]], name) {
        if j > 0 { assert c[j] == c'[j - 1]; }
      }
      assert FirstDeclaring(scopes, c, k + 1, p.scope, name);
    }
  }

  /** Entry `k` of the scope chain `c` is scope `s`, which declares
      `name`, and no earlier entry does. */
  ghost predicate FirstDeclaring(scopes: seq<ScopeRec>, c: seq<nat>, k: nat, s: nat, name: string)
  {
    && k < |c| && c[k] == s && s < |scopes|
    && Declares(scopes[s], name)
    && forall j :: 0 <= j < k ==> c[j] < |scopes| && !Declares(scopes[c[j]], name)
  }

  /** The scopes after `rec` is put at the head of its bucket in scope `s`
      (the absent-name branch of st_insert). */
  function Prepended(scopes: seq<ScopeRec>, s: nat, rec: BucketRec): (r: seq<ScopeRec>)
    requires s < |scopes| && |scopes[s].hashTable| == SIZE
    ensures |r| == |scopes|
  {
    var h := HashOf(rec.name);
    var sc := scopes[s];
    scopes[s := sc.(hashTable := sc.hashTable[h := [rec] + sc.hashTable[h]])]
  }

  /** The scopes after st_insert puts `rec` into scope `s`: a name the
      scope lacks gets `rec` at the head of its bucket, a name it already
      holds leaves everything as it was. */
  function Inserted(scopes: seq<ScopeRec>, s: nat, rec: BucketRec): (r: seq<ScopeRec>)
    requires s < |scopes| && |scopes[s].hashTable| == SIZE
    ensures |r| == |scopes| && |r[s].hashTable| == SIZE
    ensures r[s].funcName == scopes[s].funcName && r[s].parent == scopes[s].parent
    ensures r[s].nestedLevel == scopes[s].nestedLevel
  {
    if FindInScope(scopes, s, rec.name).None? then Prepended(scopes, s, rec) else scopes
  }

  /** The scopes after `ln` is appended to the line list of the record at
      `p` (st_add_lineno). */
  function WithLine(scopes: seq<ScopeRec>, p: Pos, ln: int): (r: seq<ScopeRec>)
    requires ValidPos(scopes, p)
    ensures |r| == |scopes|
  {
    var sc := scopes[p.scope];
    var chain := sc.hashTable[p.bucket];
    var rec := chain[p.index];
    scopes[p.scope := sc.(hashTable := sc.hashTable[p.bucket := chain[p.index := rec.(lines := rec.lines + [ln])]])]
  }

  /** Inserting a name the scope lacks keeps the table well formed, and the
      scope then answers the name with the new record, at the head of its
      bucket. */
  lemma PrependedFinds(scopes: seq<ScopeRec>, s: nat, rec: BucketRec)
    requires ScopesOk(scopes) && s < |scopes| && FindInScope(scopes, s, rec.name).None?
    ensures ScopesOk(Prepended(scopes, s, rec))
    ensures FindInScope(Prepended(scopes, s, rec), s, rec.name) == Some(Pos(s, HashOf(rec.name), 0))
    ensures RecordAt(Prepended(scopes, s, rec), Pos(s, HashOf(rec.name), 0)) == rec
  {
    var r := Prepended(scopes, s, rec);
    var h := HashOf(rec.name);
    var chain := scopes[s].hashTable[h];
    assert r[s].hashTable[h] == [rec] + chain;
    forall b, i, j | 0 <= b < SIZE && 0 <= i < j < |r[s].hashTable[b]|
      ensures r[s].hashTable[b][i].name != r[s].hashTable[b][j].name
    {
      if b == h {
        if i == 0 {
          assert r[s].hashTable[b][j] == chain[j - 1];
        } else {
          assert r[s].hashTable[b][i] == chain[i - 1];
          assert r[s].hashTable[b][j] == chain[j - 1];
        }
      }
    }
    forall b, i | 0 <= b < SIZE && 0 <= i < |r[s].hashTable[b]|
      ensures HashOf(r[s].hashTable[b][i].name) == b
    {
      if b == h && i > 0 {
        assert r[s].hashTable[b][i] == chain[i - 1];
      }
    }
    assert WellFormedScope(r[s], s);
  }

  /** Inserting a record for one name changes no other name's answer, from
      any scope. */
  lemma {:induction false} PrependedKeepsOthers(scopes: seq<ScopeRec>, s: nat, rec: BucketRec, u: nat, name: string)
    requires ScopesOk(scopes) && s < |scopes| && FindInScope(scopes, s, rec.name).None?
    requires u < |scopes| && name != rec.name
    ensures ScopesOk(Prepended(scopes, s, rec))
    ensures var before, after := LocateFrom(scopes, u, name), LocateFrom(Prepended(scopes, s, rec), u, name);
      before.None? <==> after.None?
    ensures var before, after := LocateFrom(scopes, u, name), LocateFrom(Prepended(scopes, s, rec), u, name);
      before.Some? ==> RecordAt(Prepended(scopes, s, rec), after.value) == RecordAt(scopes, before.value)
    decreases u
  {
    PrependedFinds(scopes, s, rec);
    var r := Prepended(scopes, s, rec);
    var h := HashOf(rec.name);
    if u == s && HashOf(name) == h {
      var chain := scopes[s].hashTable[h];
      assert r[s].hashTable[h] == [rec] + chain;
      assert r[s].hashTable[h][1..] == chain;
      assert ChainIndex(r[s].hashTable[h], name) ==
        (match ChainIndex(chain, name) case None => None case Some(k) => Some(k + 1));
    } else {
      assert r[u].hashTable[HashOf(name)] == scopes[u].hashTable[HashOf(name)];
    }
    assert r[u].parent == scopes[u].parent;
    if FindInScope(scopes, u, name).None? && scopes[u].parent.Some? {
      PrependedKeepsOthers(scopes, s, rec, scopes[u].parent.value, name);
    }
  }

  /** Prepending a record for one name leaves the record another name
      has in that scope where it finds it. */
  lemma PrependedKeepsFound(scopes: seq<ScopeRec>, s: nat, rec: BucketRec, name: string)
    requires s < |scopes| && |scopes[s].hashTable| == SIZE && name != rec.name
    requires FindInScope(scopes, s, name).Some?
    ensures FindInScope(Prepended(scopes, s, rec), s, name).Some?
    ensures RecordAt(Prepended(scopes, s, rec), FindInScope(Prepended(scopes, s, rec), s, name).value)
         == RecordAt(scopes, FindInScope(scopes, s, name).value)
  {
    var r := Prepended(scopes, s, rec);
    var h := HashOf(rec.name);
    if HashOf(name) == h {
      var chain := scopes[s].hashTable[h];
      assert r[s].hashTable[h] == [rec] + chain;
      assert r[s].hashTable[h][1..] == chain;
    } else {
      assert r[s].hashTable[HashOf(name)] == scopes[s].hashTable[HashOf(name)];
    }
  }

  /** Prepending a record for one name does not change whether the scope
      holds any other name. */
  lemma PrependedKeepsAbsent(scopes: seq<ScopeRec>, s: nat, rec: BucketRec, name: string)
    requires s < |scopes| && |scopes[s].hashTable| == SIZE && name != rec.name
    ensures FindInScope(Prepended(scopes, s, rec), s, name).None? <==> FindInScope(scopes, s, name).None?
  {
    var r := Prepended(scopes, s, rec);
    var h := HashOf(rec.name);
    if HashOf(name) == h {
      var chain := scopes[s].hashTable[h];
      assert r[s].hashTable[h] == [rec] + chain;
      assert r[s].hashTable[h][1..] == chain;
    } else {
      assert r[s].hashTable[HashOf(name)] == scopes[s].hashTable[HashOf(name)];
    }
  }

  /** st_add_lineno's effect: the record at `p` gets `ln` at the end of its
      line list, earlier lines kept in order; every other record, and the
      answer of every lookup, stay as they were. */
  lemma WithLineEffect(scopes: seq<ScopeRec>, p: Pos, ln: int)
    requires ScopesOk(scopes) && ValidPos(scopes, p)
    ensures ValidPos(WithLine(scopes, p, ln), p)
    ensures RecordAt(WithLine(scopes, p, ln), p) == RecordAt(scopes, p).(lines := RecordAt(scopes, p).lines + [ln])
    ensures forall q :: ValidPos(scopes, q) && q != p ==>
      ValidPos(WithLine(scopes, p, ln), q) && RecordAt(WithLine(scopes, p, ln), q) == RecordAt(scopes, q)
  {
  }

  /** st_add_lineno keeps the table well formed and changes the answer of
      no lookup. */
  lemma WithLineKeepsLookups(scopes: seq<ScopeRec>, p: Pos, ln: int)
    requires ScopesOk(scopes) && ValidPos(scopes, p)
    ensures ScopesOk(WithLine(scopes, p, ln))
    ensures forall u: nat, name :: u < |scopes| ==> LocateFrom(WithLine(scopes, p, ln), u, name) == LocateFrom(scopes, u, name)
  {
    var r := WithLine(scopes, p, ln);
    WithLineSameNames(scopes, p, ln);
    SameNamesOk(scopes, r);
    forall u: nat, name | u < |scopes| ensures LocateFrom(r, u, name) == LocateFrom(scopes, u, name) {
      SameNamesLocate(scopes, r, u, name);
    }
  }

  /** The two scope lists agree on everything lookups look at: parents,
      table and chain lengths, and names. */
  ghost predicate SameNames(a: seq<ScopeRec>, b: seq<ScopeRec>)
  {
    && |a| == |b|
    && forall u :: 0 <= u < |a| ==>
      && a[u].parent == b[u].parent
      && |a[u].hashTable| == |b[u].hashTable|
      && forall k :: 0 <= k < |a[u].hashTable| ==> SameChainNames(a[u].hashTable[k], b[u].hashTable[k])
  }

  ghost predicate SameChainNames(c: seq<BucketRec>, d: seq<BucketRec>)
  {
    |c| == |d| && forall j :: 0 <= j < |c| ==> c[j].name == d[j].name
  }

  lemma WithLineSameNames(scopes: seq<ScopeRec>, p: Pos, ln: int)
    requires ValidPos(scopes, p)
    ensures SameNames(scopes, WithLine(scopes, p, ln))
  {
    var r := WithLine(scopes, p, ln);
    forall u | 0 <= u < |scopes|
      ensures forall k :: 0 <= k < |scopes[u].hashTable| ==> SameChainNames(scopes[u].hashTable[k], r[u].hashTable[k])
    {
      forall k | 0 <= k < |scopes[u].hashTable| ensures SameChainNames(scopes[u].hashTable[k], r[u].hashTable[k]) {
        if u == p.scope && k == p.bucket {
          assert forall j :: 0 <= j < |r[u].hashTable[k]| ==> r[u].hashTable[k][j].name == scopes[u].hashTable[k][j].name;
        }
      }
    }
  }

  lemma SameNamesOk(a: seq<ScopeRec>, b: seq<ScopeRec>)
    requires ScopesOk(a) && SameNames(a, b)
    ensures ScopesOk(b)
  {
    forall u | 0 <= u < |b| ensures WellFormedScope(b[u], u) {
      assert WellFormedScope(a[u], u);
      forall k | 0 <= k < SIZE ensures SameChainNames(a[u].hashTable[k], b[u].hashTable[k]) {
      }
    }
  }

  lemma {:induction false} SameNamesLocate(a: seq<ScopeRec>, b: seq<ScopeRec>, u: nat, name: string)
    requires ScopesOk(a) && ScopesOk(b) && SameNames(a, b) && u < |a|
    ensures LocateFrom(a, u, name) == LocateFrom(b, u, name)
    decreases u
  {
    var h := HashOf(name);
    assert SameChainNames(a[u].hashTable[h], b[u].hashTable[h]);
    ChainIndexSameNames(a[u].hashTable[h], b[u].hashTable[h], name);
    if FindInScope(a, u, name).None? && a[u].parent.Some? {
      SameNamesLocate(a, b, a[u].parent.value, name);
    }
  }

  /** ChainIndex looks only at names. */
  lemma {:induction false} ChainIndexSameNames(c: seq<BucketRec>, d: seq<BucketRec>, name: string)
    requires |c| == |d| && forall j :: 0 <= j < |c| ==> c[j].name == d[j].name
    ensures ChainIndex(c, name) == ChainIndex(d, name)
    decreases |c|
  {
    if |c| > 0 && c[0].name != name {
      ChainIndexSameNames(c[1..], d[1..], name);
    }
  }

  // ---------------------------------------------------------------------
  // Growth of the table: no operation removes a record or changes its
  // name, declaring node or location; line lists only grow at the end.

  ghost predicate RecordExtends(x: BucketRec, y: BucketRec)
  {
    x.name == y.name && x.treeNode == y.treeNode && x.memloc == y.memloc && x.lines <= y.lines
  }

  /** Every record of `c` survives in `d`, which may only have new records
      in front. */
  ghost predicate ChainExtends(c: seq<BucketRec>, d: seq<BucketRec>)
  {
    |c| <= |d| && forall i :: 0 <= i < |c| ==> RecordExtends(c[i], d[|d| - |c|..][i])
  }

  ghost predicate ScopeExtends(a: ScopeRec, b: ScopeRec)
  {
    && a.funcName == b.funcName && a.parent == b.parent && a.nestedLevel == b.nestedLevel
    && |a.hashTable| == |b.hashTable|
    && forall k :: 0 <= k < |a.hashTable| ==> ChainExtends(a.hashTable[k], b.hashTable[k])
  }

  /** `after` is `before` with records added, lines appended and scopes
      created, and nothing removed or rewritten. */
  ghost predicate Extends(before: seq<ScopeRec>, after: seq<ScopeRec>)
  {
    |before| <= |after| && forall s :: 0 <= s < |before| ==> ScopeExtends(before[s], after[s])
  }

  lemma ExtendsRefl(scopes: seq<ScopeRec>)
    ensures Extends(scopes, scopes)
  {
    forall s | 0 <= s < |scopes| ensures ScopeExtends(scopes[s], scopes[s]) {
      forall k | 0 <= k < |scopes[s].hashTable| ensures ChainExtends(scopes[s].hashTable[k], scopes[s].hashTable[k]) {
      }
    }
  }

  lemma ExtendsTrans(a: seq<ScopeRec>, b: seq<ScopeRec>, c: seq<ScopeRec>)
    requires Extends(a, b) && Extends(b, c)
    ensures Extends(a, c)
  {
    forall s | 0 <= s < |a| ensures ScopeExtends(a[s], c[s]) {
      assert ScopeExtends(a[s], b[s]) && ScopeExtends(b[s], c[s]);
      forall k | 0 <= k < |a[s].hashTable| ensures ChainExtends(a[s].hashTable[k], c[s].hashTable[k]) {
        var x, y, z := a[s].hashTable[k], b[s].hashTable[k], c[s].hashTable[k];
        assert ChainExtends(x, y) && ChainExtends(y, z);
        forall i | 0 <= i < |x| ensures RecordExtends(x[i], z[|z| - |x|..][i]) {
          var j := i + |y| - |x|;
          assert RecordExtends(x[i], y[|y| - |x|..][i]) && y[|y| - |x|..][i] == y[j];
          assert RecordExtends(y[j], z[|z| - |y|..][j]);
          assert z[|z| - |y|..][j] == z[|z| - |x|..][i];
        }
      }
    }
  }

  lemma ChainExtendsRefl(x: seq<BucketRec>)
    ensures ChainExtends(x, x)
  {
    assert x[0..] == x;
  }

  lemma ScopeExtendsRefl(sc: ScopeRec)
    ensures ScopeExtends(sc, sc)
  {
    forall k | 0 <= k < |sc.hashTable| ensures ChainExtends(sc.hashTable[k], sc.hashTable[k]) {
      ChainExtendsRefl(sc.hashTable[k]);
    }
  }

  lemma PrependedExtends(scopes: seq<ScopeRec>, s: nat, rec: BucketRec)
    requires s < |scopes| && |scopes[s].hashTable| == SIZE
    ensures Extends(scopes, Prepended(scopes, s, rec))
  {
    var r := Prepended(scopes, s, rec);
    var h := HashOf(rec.name);
    forall u | 0 <= u < |scopes| ensures ScopeExtends(scopes[u], r[u]) {
      if u == s {
        forall k | 0 <= k < SIZE ensures ChainExtends(scopes[u].hashTable[k], r[u].hashTable[k]) {
          var x := scopes[u].hashTable[k];
          if k == h {
            assert r[u].hashTable[k] == [rec] + x;
            assert ([rec] + x)[1..] == x;
          } else {
            ChainExtendsRefl(x);
          }
        }
      } else {
        ScopeExtendsRefl(scopes[u]);
      }
    }
  }

  lemma WithLineExtends(scopes: seq<ScopeRec>, p: Pos, ln: int)
    requires ValidPos(scopes, p)
    ensures Extends(scopes, WithLine(scopes, p, ln))
  {
    var r := WithLine(scopes, p, ln);
    forall u | 0 <= u < |scopes| ensures ScopeExtends(scopes[u], r[u]) {
      forall k | 0 <= k < |scopes[u].hashTable| ensures ChainExtends(scopes[u].hashTable[k], r[u].hashTable[k]) {
        var x, y := scopes[u].hashTable[k], r[u].hashTable[k];
        assert y[0..] == y;
        forall i | 0 <= i < |x| ensures RecordExtends(x[i], y[|y| - |x|..][i]) {
          if u == p.scope && k == p.bucket && i == p.index {
            assert x[i].lines <= x[i].lines + [ln];
          }
        }
      }
    }
  }

  lemma AppendScopeExtends(scopes: seq<ScopeRec>, sc: ScopeRec)
    ensures Extends(scopes, scopes + [sc])
  {
    ExtendsRefl(scopes);
    assert forall s :: 0 <= s < |scopes| ==> (scopes + [sc])[s] == scopes[s];
  }

  /** Whichever branch st_insert takes, the table stays well formed and
      grows, and the scope then holds the name; the record is `rec` when
      the name was new there, and the earlier record otherwise. */
  lemma InsertKeepsTable(scopes: seq<ScopeRec>, s: nat, rec: BucketRec)
    requires ScopesOk(scopes) && s < |scopes|
    ensures ScopesOk(Inserted(scopes, s, rec)) && Extends(scopes, Inserted(scopes, s, rec))
    ensures FindInScope(Inserted(scopes, s, rec), s, rec.name).Some?
    ensures FindInScope(scopes, s, rec.name).None? ==>
      RecordAt(Inserted(scopes, s, rec), FindInScope(Inserted(scopes, s, rec), s, rec.name).value) == rec
    ensures FindInScope(scopes, s, rec.name).Some? ==> Inserted(scopes, s, rec) == scopes
  {
    if FindInScope(scopes, s, rec.name).None? {
      PrependedFinds(scopes, s, rec);
      PrependedExtends(scopes, s, rec);
    } else {
      ExtendsRefl(scopes);
    }
  }

  /** A record found in a scope is still found there, by name, after the
      table grows: growth never hides an earlier declaration. */
  lemma ExtendsKeepsFind(a: seq<ScopeRec>, b: seq<ScopeRec>, s: nat, name: string)
    requires Extends(a, b) && ScopesOk(b) && s < |a| && |a[s].hashTable| == SIZE
    requires FindInScope(a, s, name).Some?
    ensures FindInScope(b, s, name).Some?
    ensures RecordExtends(RecordAt(a, FindInScope(a, s, name).value), RecordAt(b, FindInScope(b, s, name).value))
  {
    var p := FindInScope(a, s, name).value;
    var h := HashOf(name);
    var x, y := a[s].hashTable[h], b[s].hashTable[h];
    assert ScopeExtends(a[s], b[s]);
    assert ChainExtends(x, y);
    var j := p.index + |y| - |x|;
    assert RecordExtends(x[p.index], y[|y| - |x|..][p.index]) && y[|y| - |x|..][p.index] == y[j];
    assert WellFormedScope(b[s], s);
    assert y[j].name == name;
    assert ChainIndex(y, name).Some?;
  }

  // ---------------------------------------------------------------------
  // sc_create as written, and as corrected.

  /** sc_create as written: the scope record comes from malloc and its
      hash table is never cleared, so its buckets hold whatever `memory`
      the allocator hands back. */
  function CreatedAsWritten(funcName: string, memory: seq<seq<BucketRec>>, parent: Option<nat>, level: nat): (sc: ScopeRec)
    ensures sc.hashTable == memory && sc.parent == parent && sc.nestedLevel == level
  {
    ScopeRec(funcName, memory, parent, level)
  }

  /** A scope created as written can answer a lookup for a name nobody
      declared: leftover memory in its bucket for "x" is taken for a
      chain. */
  lemma UnclearedScopeAnswersLookup(node: TreeNode)
    ensures var memory: seq<seq<BucketRec>> := seq(SIZE, b => if b == HashOf("x") then [BucketRec("x", node, [], 0)] else []);
      FindInScope([CreatedAsWritten("main", memory, None, 1)], 0, "x").Some?
  {
    var memory: seq<seq<BucketRec>> := seq(SIZE, b => if b == HashOf("x") then [BucketRec("x", node, [], 0)] else []);
    assert memory[HashOf("x")][0].name == "x";
  }

  /** sc_create as intended: every bucket starts empty, so a fresh scope
      declares nothing. */
  function Created(funcName: string, parent: Option<nat>, level: nat): (sc: ScopeRec)
    ensures |sc.hashTable| == SIZE
    ensures forall name :: !Declares(sc, name)
    ensures sc.parent == parent && sc.nestedLevel == level && sc.funcName == funcName
  {
    ScopeRec(funcName, EmptyTable(), parent, level)
  }

  // ---------------------------------------------------------------------

  /** The symbol table's global state: the scope list (`scopes`,
      `cntScope`), the open-scope stack (`scopeStack`, `cntScopeStack`) and
      one location counter per stack level (`location`). */
  class SymTab {
    var scopes: seq<ScopeRec>
    var scopeStack: seq<nat>
    var location: seq<nat>

    ghost predicate Valid()
      reads this
    {
      && ScopesOk(scopes)
      && |location| == |scopeStack|
      && forall i :: 0 <= i < |scopeStack| ==> scopeStack[i] < |scopes|
    }

    /** The initial state: no scopes, nothing open. */
    constructor ()
      ensures Valid() && scopes == [] && scopeStack == [] && location == []
    {
      scopes := [];
      scopeStack := [];
      location := [];
    }

    /** sc_top: the innermost open scope, None (C: NULL) on an empty stack. */
    function Top(): (r: Option<nat>)
      reads this
      ensures r.None? <==> scopeStack == []
      ensures Valid() && r.Some? ==> r.value < |scopes|
    {
      if |scopeStack| == 0 then None else Some(scopeStack[|scopeStack| - 1])
    }

    /** The record `name` resolves to from the top of the stack, if any. */
    ghost function Visible(name: string): Option<Pos>
      reads this
      requires Valid()
    {
      match Top()
      case None => None
      case Some(s) => LocateFrom(scopes, s, name)
    }

    /** The declaring node of the record `name` resolves to from the top
        of the stack (`get_bucket(name)->treeNode`), if any. */
    ghost function Declaration(name: string): Option<TreeNode>
      reads this
      requires Valid()
    {
      match Visible(name)
      case None => None
      case Some(p) => Some(RecordAt(scopes, p).treeNode)
    }

    /** sc_create: a new, empty scope whose parent is the current top and
      whose nesting level is the current depth, added to the scope list;
      the stack is left alone. */
    method Create(funcName: string) returns (s: nat)
      requires Valid()
      modifies this
      ensures Valid()
      ensures s == old(|scopes|)
      ensures scopes == old(scopes) + [Created(funcName, old(Top()), old(|scopeStack|))]
      ensures scopeStack == old(scopeStack) && location == old(location)
      ensures Extends(old(scopes), scopes)
    {
      var sc := Created(funcName, Top(), |scopeStack|);
      AppendScopeExtends(scopes, sc);
      s := |scopes|;
      scopes := scopes + [sc];
      assert WellFormedScope(sc, s);
      assert forall u :: 0 <= u < s ==> scopes[u] == old(scopes)[u];
    }

    /** sc_push: `s` becomes the top, with a fresh location counter at 0. */
    method Push(s: nat)
      requires Valid() && s < |scopes|
      modifies this
      ensures Valid()
      ensures scopeStack == old(scopeStack) + [s] && location == old(location) + [0]
      ensures scopes == old(scopes)
      ensures Top() == Some(s)
    {
      scopeStack := scopeStack + [s];
      location := location + [0];
    }

    /** sc_pop: drop the top scope; nothing happens on an empty stack. */
    method Pop()
      requires Valid()
      modifies this
      ensures Valid() && scopes == old(scopes)
      ensures old(scopeStack) == [] ==> scopeStack == [] && location == []
      ensures old(scopeStack) != [] ==>
        && scopeStack == old(scopeStack)[..|old(scopeStack)| - 1]
        && location == old(location)[..|old(location)| - 1]
    {
      if |scopeStack| > 0 {
        scopeStack := scopeStack[..|scopeStack| - 1];
        location := location[..|location| - 1];
      }
    }

    /** addLocation: the top level's counter, post-incremented. */
    method AddLocation() returns (loc: nat)
      requires Valid() && scopeStack != []
      modifies this
      ensures Valid() && scopes == old(scopes) && scopeStack == old(scopeStack)
      ensures loc == old(location[|location| - 1])
      ensures location == old(location)[|old(location)| - 1 := loc + 1]
    {
      loc := location[|location| - 1];
      location := location[|location| - 1 := loc + 1];
    }

    /** st_insert: a name the top scope lacks gets a new record at the head
      of its bucket, holding `loc`, `node` and the single line `lineno`; a
      name it already holds leaves everything as it was. */
    method Insert(name: string, lineno: int, loc: nat, node: TreeNode)
      requires Valid() && scopeStack != []
      modifies this
      ensures Valid() && scopeStack == old(scopeStack) && location == old(location)
      ensures scopes == Inserted(old(scopes), Top().value, BucketRec(name, node, [lineno], loc))
      ensures Extends(old(scopes), scopes)
    {
      var h := Hash(name);
      var top := Top().value;
      InsertKeepsTable(scopes, top, BucketRec(name, node, [lineno], loc));
      var i := FindInChain(scopes[top].hashTable[h], name);
      if i.None? {
        PrependedFinds(scopes, top, BucketRec(name, node, [lineno], loc));
        var sc := scopes[top];
        scopes := scopes[top := sc.(hashTable := sc.hashTable[h := [BucketRec(name, node, [lineno], loc)] + sc.hashTable[h]])];
      }
    }

    /** get_bucket: walk from the top scope along the parent links and
      return the first record for `name`; None (NULL) when no scope on the
      way holds it. */
    method GetBucket(name: string) returns (p: Option<Pos>)
      requires Valid()
      ensures p == Visible(name)
    {
      var h := Hash(name);
      var now: Option<nat> := Top();
      while now.Some?
        invariant now.Some? ==> now.value < |scopes|
        invariant Visible(name) == if now.None? then None else LocateFrom(scopes, now.value, name)
        decreases if now.None? then 0 else now.value + 1
      {
        var s := now.value;
        var i := FindInChain(scopes[s].hashTable[h], name);
        if i.Some? {
          return Some(Pos(s, h, i.value));
        }
        now := scopes[s].parent;
      }
      p := None;
    }

    /** st_lookup: the location of the visible record for `name`, or -1. */
    method Lookup(name: string) returns (loc: int)
      requires Valid()
      ensures loc == -1 <==> Visible(name).None?
      ensures Visible(name).Some? ==> loc == RecordAt(scopes, Visible(name).value).memloc
    {
      var p := GetBucket(name);
      if p.Some? {
        return RecordAt(scopes, p.value).memloc;
      }
      return -1;
    }

    /** st_lookup_top: the location of `name`'s record in the top scope
      alone, or -1; parents are never consulted. */
    method LookupTop(name: string) returns (loc: int)
      requires Valid() && scopeStack != []
      ensures loc == -1 <==> !Declares(scopes[Top().value], name)
      ensures loc != -1 ==> loc == RecordAt(scopes, FindInScope(scopes, Top().value, name).value).memloc
    {
      var h := Hash(name);
      var top := Top().value;
      FindInScopeDeclares(scopes, top, name);
      var i := FindInChain(scopes[top].hashTable[h], name);
      if i.Some? {
        return scopes[top].hashTable[h][i.value].memloc;
      }
      return -1;
    }

    /** st_add_lineno: append `lineno` to the line list of the record
      `name` resolves to.  The name must be visible (C dereferences the
      NULL record otherwise). */
    method AddLineno(name: string, lineno: int)
      requires Valid() && Visible(name).Some?
      modifies this
      ensures Valid() && scopeStack == old(scopeStack) && location == old(location)
      ensures scopes == WithLine(old(scopes), old(Visible(name)).value, lineno)
      ensures Extends(old(scopes), scopes)
    {
      var p := GetBucket(name);
      WithLineSameNames(scopes, p.value, lineno);
      SameNamesOk(scopes, WithLine(scopes, p.value, lineno));
      WithLineExtends(scopes, p.value, lineno);
      var sc := scopes[p.value.scope];
      var chain := sc.hashTable[p.value.bucket];
      var rec := chain[p.value.index];
      scopes := scopes[p.value.scope := sc.(hashTable := sc.hashTable[p.value.bucket := chain[p.value.index := rec.(lines := rec.lines + [lineno])]])];
    }
  }
}
