/**
 * `dict_transform` of fdc/models.py: a deep copy of nested dicts and lists, whose leaves are then replaced in
 * place with an explicit stack. It is proved to be the plain recursive map over the tree.
 */
module DictTransform {
  import opened Wrappers

  /** The exact types that transformers are keyed by. */
  datatype PyType = TInt | TBool | TStr | TNone | TList | TDict | TOther(name: string)

  /** Any object that is neither a dict nor a list. */
  datatype Atom = Int(i: int) | Bool(b: bool) | Str(s: string) | Null | Opaque(typeName: string, id: int)

  datatype Value = Leaf(atom: Atom) | Ref(node: Container)

  /** The keys of a dict stay in insertion order; its values and the items of a list are the slots. */
  datatype Shape = ListShape | DictShape(keys: seq<string>)

  class Container {
    const shape: Shape
    var slots: seq<Value>

    constructor (shape: Shape, slots: seq<Value>)
      ensures this.shape == shape && this.slots == slots
    {
      this.shape, this.slots := shape, slots;
    }
  }

  type Transformers = map<PyType, Atom -> Value>

  /** What a value unfolds to. A tip holds whatever object is there, unopened. */
  datatype Tree = Tip(value: Value) | Branch(shape: Shape, kids: seq<Tree>)

  type Snapshot = map<Container, seq<Value>>

  function TypeOf(v: Value): PyType {
    match v
    case Ref(c) => if c.shape.ListShape? then TList else TDict
    case Leaf(Int(_)) => TInt
    case Leaf(Bool(_)) => TBool
    case Leaf(Str(_)) => TStr
    case Leaf(Null) => TNone
    case Leaf(Opaque(name, _)) => TOther(name)
  }

  function MapValue(fs: Transformers, v: Value): Value {
    if v.Leaf? && TypeOf(v) in fs then fs[TypeOf(v)](v.atom) else v
  }

  function MapValues(fs: Transformers, vs: seq<Value>): seq<Value> {
    seq(|vs|, i requires 0 <= i < |vs| => MapValue(fs, vs[i]))
  }

  /** The recursive map over the leaves. */
  function MapTree(fs: Transformers, t: Tree): Tree {
    match t
    case Tip(v) => Tip(MapValue(fs, v))
    case Branch(shape, kids) => Branch(shape, seq(|kids|, i requires 0 <= i < |kids| => MapTree(fs, kids[i])))
  }

  /** All tips are atoms: every dict and list is opened. */
  ghost predicate Opened(t: Tree) {
    match t
    case Tip(v) => v.Leaf?
    case Branch(_, kids) => forall i :: 0 <= i < |kids| ==> Opened(kids[i])
  }

  ghost predicate Denotes(h: Snapshot, v: Value, t: Tree)
    decreases t
  {
    match t
    case Tip(w) => v == w
    case Branch(shape, kids) =>
      && v.Ref? && v.node in h && v.node.shape == shape
      && |h[v.node]| == |kids|
      && forall i :: 0 <= i < |kids| ==> Denotes(h, h[v.node][i], kids[i])
  }

  /** The snapshot is what the containers hold now. */
  ghost predicate Current(h: Snapshot)
    reads h.Keys
  {
    forall c :: c in h ==> c.slots == h[c]
  }

  /** No container is held in two places, and every container that is held is in the snapshot. */
  ghost predicate Forest(h: Snapshot) {
    && (forall c, i :: c in h && 0 <= i < |h[c]| && h[c][i].Ref? ==> h[c][i].node in h)
    && (forall c, i, d, j :: c in h && d in h && 0 <= i < |h[c]| && 0 <= j < |h[d]| ==>
          h[c][i].Ref? && h[c][i] == h[d][j] ==> c == d && i == j)
  }

  /** `v` is an atom, or a container that no other holds. */
  ghost predicate IsRoot(h: Snapshot, v: Value) {
    v.Ref? ==> v.node in h && forall c, i :: c in h && 0 <= i < |h[c]| ==> h[c][i] != v
  }

  lemma {:induction false} DenotesMore(h: Snapshot, k: Snapshot, v: Value, t: Tree)
    requires Denotes(h, v, t) && h.Keys !! k.Keys
    ensures Denotes(h + k, v, t) && Denotes(k + h, v, t)
    decreases t
  {
    if t.Branch? {
      forall i | 0 <= i < |t.kids|
        ensures Denotes(h + k, h[v.node][i], t.kids[i]) && Denotes(k + h, h[v.node][i], t.kids[i])
      {
        DenotesMore(h, k, h[v.node][i], t.kids[i]);
      }
    }
  }

  /** Separate copies of several values: together a forest with these values as distinct roots. */
  ghost predicate Copies(h: Snapshot, vs: seq<Value>, ts: seq<Tree>) {
    && |vs| == |ts| && Forest(h)
    && (forall i :: 0 <= i < |vs| ==> IsRoot(h, vs[i]) && Denotes(h, vs[i], ts[i]))
    && (forall i, j :: 0 <= i < j < |vs| && vs[i].Ref? ==> vs[i] != vs[j])
  }

  lemma CopiesMore(h: Snapshot, vs: seq<Value>, ts: seq<Tree>, k: Snapshot, v: Value, t: Tree)
    requires Copies(h, vs, ts) && Copies(k, [v], [t]) && h.Keys !! k.Keys
    ensures Copies(h + k, vs + [v], ts + [t])
  {
    var m := h + k;
    assert Denotes(k, [v][0], [t][0]) && IsRoot(k, [v][0]);
    DenotesMore(k, h, v, t);
    forall i | 0 <= i < |vs| ensures IsRoot(m, vs[i]) && Denotes(m, vs[i], ts[i]) {
      DenotesMore(h, k, vs[i], ts[i]);
    }
  }

  lemma CopyBranch(h: Snapshot, vs: seq<Value>, ts: seq<Tree>, c: Container)
    requires Copies(h, vs, ts) && c !in h
    ensures Copies(h[c := vs], [Ref(c)], [Branch(c.shape, ts)])
  {
    var m := h[c := vs];
    forall i | 0 <= i < |vs| ensures Denotes(m, vs[i], ts[i]) {
      DenotesMore(h, map[c := vs], vs[i], ts[i]);
      assert h + map[c := vs] == m;
    }
  }

  /** `copy.deepcopy` of a tree: new containers throughout, the atoms shared. */
  method DeepCopy(v: Value, ghost h: Snapshot, ghost t: Tree) returns (w: Value, ghost k: Snapshot)
    requires Denotes(h, v, t) && Opened(t) && Current(h)
    ensures fresh(k.Keys) && Current(k)
    ensures Copies(k, [w], [t])
    decreases t
  {
    match v {
      case Leaf(_) =>
        w, k := v, map[];
        assert Denotes(k, w, t);
      case Ref(c) =>
        var values: seq<Value> := [];
        k := map[];
        var i := 0;
        while i < |c.slots|
          invariant 0 <= i <= |t.kids| == |c.slots| && |values| == i
          invariant fresh(k.Keys) && Current(k)
          invariant Copies(k, values, t.kids[..i])
        {
          ghost var before := k;
          var value;
          value, k := DeepCopy(c.slots[i], h, t.kids[i]);
          CopiesMore(before, values, t.kids[..i], k, value, t.kids[i]);
          k := before + k;
          values := values + [value];
          assert t.kids[..i + 1] == t.kids[..i] + [t.kids[i]];
          i := i + 1;
        }
        assert t.kids[..i] == t.kids;
        var copy := new Container(c.shape, values);
        CopyBranch(k, values, t.kids, copy);
        k := k[copy := values];
        w := Ref(copy);
    }
  }

  // ---- the traversal ----

  /** The containers among the slots, in order. */
  function Children(slots: seq<Value>): seq<Container> {
    if slots == [] then []
    else
      var init := Children(slots[..|slots| - 1]);
      var last := slots[|slots| - 1];
      if last.Ref? then init + [last.node] else init
  }

  ghost predicate Distinct(cs: seq<Container>) {
    forall i, j :: 0 <= i < j < |cs| ==> cs[i] != cs[j]
  }

  lemma {:induction false} ChildrenMembers(slots: seq<Value>, x: Container)
    ensures x in Children(slots) <==> exists i :: 0 <= i < |slots| && slots[i] == Ref(x)
  {
    if slots != [] {
      var init := slots[..|slots| - 1];
      ChildrenMembers(init, x);
      if x in Children(init) {
        var i :| 0 <= i < |init| && init[i] == Ref(x);
        assert slots[i] == Ref(x);
      }
      if i :| 0 <= i < |slots| && slots[i] == Ref(x) {
        if i < |init| { assert init[i] == Ref(x); }
      }
    }
  }

  lemma {:induction false} ChildrenDistinct(slots: seq<Value>)
    requires forall i, j :: 0 <= i < j < |slots| && slots[i].Ref? ==> slots[i] != slots[j]
    ensures Distinct(Children(slots))
  {
    if slots != [] {
      var init, last := slots[..|slots| - 1], slots[|slots| - 1];
      ChildrenDistinct(init);
      if last.Ref? { ChildrenMembers(init, last.node); }
    }
  }

  ghost predicate Held(k: Snapshot, done: set<Container>, x: Container) {
    exists c, i :: c in done && c in k && 0 <= i < |k[c]| && k[c][i] == Ref(x)
  }

  /**
   * The stack holds the containers that are found but not finished: each container reached so far is the
   * root or held by a finished one, and everything that a finished one holds has been reached.
   */
  ghost predicate Frontier(k: Snapshot, root: Container, done: set<Container>, stack: seq<Container>) {
    && done <= k.Keys
    && (root in done || root in stack)
    && Distinct(stack)
    && (forall i :: 0 <= i < |stack| ==> stack[i] in k && stack[i] !in done)
    && (forall i :: 0 <= i < |stack| ==> stack[i] == root || Held(k, done, stack[i]))
    && (forall c :: c in done ==> c == root || Held(k, done, c))
    && (forall c, i :: c in done && 0 <= i < |k[c]| && k[c][i].Ref? ==> k[c][i].node in done || k[c][i].node in stack)
  }

  /** In a forest the children of the popped container are new. */
  lemma ChildIsNew(k: Snapshot, root: Container, done: set<Container>, stack: seq<Container>, i: nat)
    requires Forest(k) && IsRoot(k, Ref(root)) && Frontier(k, root, done, stack) && stack != []
    requires i < |k[stack[|stack| - 1]]| && k[stack[|stack| - 1]][i].Ref?
    ensures var x := k[stack[|stack| - 1]][i].node; x in k && x !in done && x !in stack
  {
    var d := stack[|stack| - 1];
    var x := k[d][i].node;
    assert k[d][i] != Ref(root);
    assert !Held(k, done, x);
  }

  lemma FrontierStep(k: Snapshot, root: Container, done: set<Container>, stack: seq<Container>)
    requires Forest(k) && IsRoot(k, Ref(root)) && Frontier(k, root, done, stack) && stack != []
    ensures var d := stack[|stack| - 1];
            Frontier(k, root, done + {d}, stack[..|stack| - 1] + Children(k[d]))
  {
    var d, base := stack[|stack| - 1], stack[..|stack| - 1];
    var found, done' := Children(k[d]), done + {d};
    var stack' := base + found;
    ChildrenDistinct(k[d]);
    forall n | 0 <= n < |found|
      ensures found[n] in k && found[n] !in done' && found[n] !in base && Held(k, done', found[n])
    {
      ChildrenMembers(k[d], found[n]);
      var i :| 0 <= i < |k[d]| && k[d][i] == Ref(found[n]);
      ChildIsNew(k, root, done, stack, i);
    }
    assert d !in base;
    forall x | Held(k, done, x) ensures Held(k, done', x) {
    }
    forall i | 0 <= i < |stack'| ensures stack'[i] == root || Held(k, done', stack'[i]) {
      if i < |base| { assert stack'[i] == stack[i]; }
    }
    forall c, i | c in done' && 0 <= i < |k[c]| && k[c][i].Ref?
      ensures k[c][i].node in done' || k[c][i].node in stack'
    {
      if c == d {
        ChildrenMembers(k[d], k[c][i].node);
      } else if k[c][i].node in stack {
        assert stack == base + [d];
      }
    }
  }

  /** When every held container of `done` is in `done`, the finished heap denotes the mapped tree. */
  lemma {:induction false} FinishedDenotes(
    fs: Transformers, k: Snapshot, done: set<Container>, f: Snapshot, v: Value, t: Tree)
    requires Denotes(k, v, t) && Opened(t) && done <= k.Keys
    requires v.Ref? ==> v.node in done
    requires forall c, i :: c in done && 0 <= i < |k[c]| && k[c][i].Ref? ==> k[c][i].node in done
    requires f.Keys == done && forall c :: c in done ==> f[c] == MapValues(fs, k[c])
    ensures Denotes(f, MapValue(fs, v), MapTree(fs, t))
    decreases t
  {
    if t.Branch? {
      var mapped := MapTree(fs, t);
      forall i | 0 <= i < |t.kids| ensures Denotes(f, f[v.node][i], mapped.kids[i]) {
        FinishedDenotes(fs, k, done, f, k[v.node][i], t.kids[i]);
      }
    }
  }

  lemma OneMoreSlot(fs: Transformers, slots: seq<Value>, i: nat)
    requires i < |slots|
    ensures (MapValues(fs, slots[..i]) + slots[i..])[i := MapValue(fs, slots[i])] ==
            MapValues(fs, slots[..i + 1]) + slots[i + 1..]
    ensures MapValue(fs, slots[i]) == slots[i] ==>
            MapValues(fs, slots[..i]) + slots[i..] == MapValues(fs, slots[..i + 1]) + slots[i + 1..]
    ensures Children(slots[..i + 1]) == Children(slots[..i]) + if slots[i].Ref? then [slots[i].node] else []
  {
    assert slots[..i + 1][..i] == slots[..i];
    assert MapValues(fs, slots[..i + 1]) == MapValues(fs, slots[..i]) + [MapValue(fs, slots[i])];
  }

  /** One popped container: its containers go on the stack, its leaves are replaced in place. */
  method TransformSlots(d: Container, fs: Transformers, stack0: seq<Container>) returns (stack: seq<Container>)
    requires TList !in fs && TDict !in fs
    modifies d`slots
    ensures stack == stack0 + Children(old(d.slots))
    ensures d.slots == MapValues(fs, old(d.slots))
  {
    ghost var before := d.slots;
    stack := stack0;
    var i := 0;
    while i < |d.slots|
      invariant 0 <= i <= |d.slots| == |before|
      invariant stack == stack0 + Children(before[..i])
      invariant d.slots == MapValues(fs, before[..i]) + before[i..]
    {
      OneMoreSlot(fs, before, i);
      var v := d.slots[i];
      if v.Ref? {
        stack := stack + [v.node];
      }
      if TypeOf(v) in fs {
        d.slots := d.slots[i := fs[TypeOf(v)](v.atom)];
      }
      i := i + 1;
    }
    assert before[..i] == before;
  }

  /** The deep copy of a tree whose root is a container. */
  method CopyRoot(data: Container, ghost h: Snapshot, ghost t: Tree) returns (root: Container, ghost k: Snapshot)
    requires Denotes(h, Ref(data), t) && Opened(t) && Current(h)
    ensures fresh(k.Keys) && Current(k)
    ensures Forest(k) && IsRoot(k, Ref(root)) && Denotes(k, Ref(root), t)
  {
    var copied;
    copied, k := DeepCopy(Ref(data), h, t);
    assert Denotes(k, [copied][0], [t][0]) && IsRoot(k, [copied][0]);
    root := copied.node;
  }

  /** Once the stack is empty everything reachable from the root is finished. */
  ghost function Finished(fs: Transformers, k: Snapshot, done: set<Container>, root: Container, t: Tree): (f: Snapshot)
    requires Denotes(k, Ref(root), t) && Opened(t) && Frontier(k, root, done, [])
    ensures f.Keys == done && forall c :: c in done ==> f[c] == MapValues(fs, k[c])
    ensures Denotes(f, Ref(root), MapTree(fs, t))
  {
    var f := map c | c in done :: MapValues(fs, k[c]);
    FinishedDenotes(fs, k, done, f, Ref(root), t);
    f
  }

  /** The containers of the copy, some of them finished. */
  ghost predicate Halfway(fs: Transformers, k: Snapshot, done: set<Container>)
    reads k.Keys
  {
    forall c :: c in k ==> c.slots == if c in done then MapValues(fs, k[c]) else k[c]
  }

  /** Pops one container and finishes it. */
  method FinishTop(root: Container, fs: Transformers, ghost k: Snapshot, ghost done: set<Container>,
                   stack0: seq<Container>)
    returns (stack: seq<Container>)
    requires Forest(k) && IsRoot(k, Ref(root)) && Frontier(k, root, done, stack0) && Halfway(fs, k, done)
    requires stack0 != [] && TList !in fs && TDict !in fs
    modifies k.Keys
    ensures var top := stack0[|stack0| - 1];
            && top in k && top !in done
            && Frontier(k, root, done + {top}, stack) && Halfway(fs, k, done + {top})
  {
    FrontierStep(k, root, done, stack0);
    var d := stack0[|stack0| - 1];
    stack := TransformSlots(d, fs, stack0[..|stack0| - 1]);
  }

  /** The stack loop over the copy. */
  method Traverse(root: Container, fs: Transformers, ghost k: Snapshot, ghost t: Tree) returns (ghost f: Snapshot)
    requires Forest(k) && IsRoot(k, Ref(root)) && Denotes(k, Ref(root), t) && Opened(t) && Current(k)
    requires TList !in fs && TDict !in fs
    modifies k.Keys
    ensures f.Keys <= k.Keys && Current(f)
    ensures Denotes(f, Ref(root), MapTree(fs, t))
  {
    var stack := [root];
    ghost var done: set<Container> := {};
    while stack != []
      invariant Frontier(k, root, done, stack)
      invariant Halfway(fs, k, done)
      decreases k.Keys - done
    {
      ghost var top := stack[|stack| - 1];
      stack := FinishTop(root, fs, k, done, stack);
      done := done + {top};
    }
    f := Finished(fs, k, done, root, t);
  }

  /**
   * The result denotes the recursive map of what the input denotes; it is made of new containers, and the
   * containers of the input hold what they held before.
   */
  method DictTransform(data: Container, fs: Transformers, ghost h: Snapshot, ghost t: Tree)
    returns (newData: Container, ghost f: Snapshot)
    requires Denotes(h, Ref(data), t) && Opened(t) && Current(h)
    requires Forest(h) && IsRoot(h, Ref(data))
    requires TList !in fs && TDict !in fs
    ensures Denotes(f, Ref(newData), MapTree(fs, t))
    ensures fresh(f.Keys) && Current(f)
    ensures Current(h)
  {
    ghost var k;
    newData, k := CopyRoot(data, h, t);
    f := Traverse(newData, fs, k, t);
  }

  // ---- integers as decimal text ----

  function Digit(d: nat): char
    requires d < 10
  {
    "0123456789"[d]
  }

  function Digits(n: nat): string {
    if n < 10 then [Digit(n)] else Digits(n / 10) + [Digit(n % 10)]
  }

  /** `str` of an integer. */
  function Decimal(i: int): string {
    if i < 0 then "-" + Digits(-i) else Digits(i)
  }

  function ParseDigits(s: string): int {
    if s == "" then 0 else 10 * ParseDigits(s[..|s| - 1]) + (s[|s| - 1] as int - '0' as int)
  }

  function ParseDecimal(s: string): int {
    if s != "" && s[0] == '-' then -ParseDigits(s[1..]) else ParseDigits(s)
  }

  lemma {:induction false} DigitsRoundTrip(n: nat)
    ensures Digits(n) != "" && Digits(n)[0] != '-'
    ensures ParseDigits(Digits(n)) == n
  {
    if n >= 10 {
      DigitsRoundTrip(n / 10);
      var s := Digits(n);
      assert s[..|s| - 1] == Digits(n / 10);
    }
  }

  lemma DecimalRoundTrip(i: int)
    ensures ParseDecimal(Decimal(i)) == i
  {
    DigitsRoundTrip(if i < 0 then -i else i);
    assert ("-" + Digits(if i < 0 then -i else i))[1..] == Digits(if i < 0 then -i else i);
  }

  predicate IsDigit(c: char) {
    '0' <= c <= '9'
  }

  predicate IsNatural(s: string) {
    s != "" && (forall i :: 0 <= i < |s| ==> IsDigit(s[i])) && (s[0] == '0' ==> |s| == 1)
  }

  /** A decimal numeral in its usual form: digits with no leading zero, and no minus sign before zero. */
  predicate IsNumeral(s: string) {
    if s != "" && s[0] == '-' then IsNatural(s[1..]) && s[1] != '0' else IsNatural(s)
  }

  lemma {:induction false} DigitsNatural(n: nat)
    ensures IsNatural(Digits(n)) && (n > 0 ==> Digits(n)[0] != '0')
  {
    if n >= 10 {
      DigitsNatural(n / 10);
    }
  }

  lemma {:induction false} NaturalIsDigits(s: string)
    requires IsNatural(s)
    ensures ParseDigits(s) >= 0 && Digits(ParseDigits(s)) == s
    ensures ParseDigits(s) == 0 ==> s == "0"
  {
    var init, last := s[..|s| - 1], s[|s| - 1];
    assert IsDigit(last);
    var d := last as int - '0' as int;
    assert Digit(d) == last;
    if init == "" {
      assert s == [last];
    } else {
      assert forall i :: 0 <= i < |init| ==> IsDigit(init[i]) by {
        assert forall i :: 0 <= i < |init| ==> init[i] == s[i];
      }
      NaturalIsDigits(init);
      var n := ParseDigits(init);
      assert n > 0 && (10 * n + d) / 10 == n && (10 * n + d) % 10 == d;
      assert s == init + [last];
    }
  }

  /** `str` of an integer is the one usual numeral that reads as that integer. */
  lemma DecimalIsTheNumeral(i: int, s: string)
    ensures s == Decimal(i) <==> IsNumeral(s) && ParseDecimal(s) == i
  {
    var n: nat := if i < 0 then -i else i;
    DecimalRoundTrip(i);
    DigitsNatural(n);
    DigitsRoundTrip(n);
    assert ("-" + Digits(n))[1..] == Digits(n);
    if IsNumeral(s) && ParseDecimal(s) == i {
      if s[0] == '-' {
        NaturalIsDigits(s[1..]);
        assert s == "-" + s[1..];
      } else {
        NaturalIsDigits(s);
      }
    }
  }

  /** `str` of an atom; of a foreign object only the type is known. */
  function Text(a: Atom): string {
    match a
    case Int(i) => Decimal(i)
    case Bool(b) => if b then "True" else "False"
    case Str(s) => s
    case Null => "None"
    case Opaque(typeName, _) => typeName
  }

  const TYPESCRIPT: Transformers := map[TInt := (a: Atom) => Leaf(Str(Text(a)))]

  /** The subtree at a path of positions. */
  function At(t: Tree, path: seq<nat>): Option<Tree> {
    if path == [] then Some(t)
    else if t.Tip? || path[0] >= |t.kids| then None
    else At(t.kids[path[0]], path[1..])
  }

  /**
   * The map keeps every path; there it keeps keys, order and length of a dict or list, and turns an atom into
   * what the transformer of its exact type makes of it, once, or leaves it if there is none.
   */
  lemma {:induction false} MapTreeAt(fs: Transformers, t: Tree, path: seq<nat>)
    ensures var after := At(MapTree(fs, t), path);
            match At(t, path)
            case None => after == None
            case Some(Branch(shape, kids)) =>
              after.Some? && after.value.Branch? && after.value.shape == shape && |after.value.kids| == |kids|
            case Some(Tip(Ref(c))) => after == Some(Tip(Ref(c)))
            case Some(Tip(Leaf(atom))) =>
              after == Some(Tip(if TypeOf(Leaf(atom)) in fs then fs[TypeOf(Leaf(atom))](atom) else Leaf(atom)))
    decreases |path|
  {
    if path != [] && t.Branch? && path[0] < |t.kids| {
      MapTreeAt(fs, t.kids[path[0]], path[1..]);
    }
  }

  /**
   * At every path: an integer becomes a text that reads back as that integer, every other leaf stays, and
   * dicts and lists keep their keys, order and length. No integer is left.
   */
  lemma TypescriptAt(t: Tree, path: seq<nat>)
    requires Opened(t)
    ensures var after := At(MapTree(TYPESCRIPT, t), path);
            match At(t, path)
            case None => after.None?
            case Some(Branch(shape, kids)) =>
              after.Some? && after.value.Branch? && after.value.shape == shape && |after.value.kids| == |kids|
            case Some(Tip(Leaf(Int(i)))) =>
              after.Some? && after.value.Tip? && after.value.value.Leaf? && after.value.value.atom.Str?
              && IsNumeral(after.value.value.atom.s) && ParseDecimal(after.value.value.atom.s) == i
            case Some(Tip(v)) => after == Some(Tip(v))
    ensures var after := At(MapTree(TYPESCRIPT, t), path);
            after.Some? && after.value.Tip? ==> TypeOf(after.value.value) != TInt
  {
    MapTreeAt(TYPESCRIPT, t, path);
    if At(t, path).Some? && At(t, path).value.Tip? && At(t, path).value.value.Leaf?
      && At(t, path).value.value.atom.Int?
    {
      var i := At(t, path).value.value.atom.i;
      DecimalIsTheNumeral(i, Decimal(i));
    }
  }

  /** `dict_transform_typescript` */
  method DictTransformTypescript(data: Container, ghost h: Snapshot, ghost t: Tree)
    returns (newData: Container, ghost f: Snapshot)
    requires Denotes(h, Ref(data), t) && Opened(t) && Current(h)
    requires Forest(h) && IsRoot(h, Ref(data))
    ensures Denotes(f, Ref(newData), MapTree(TYPESCRIPT, t))
    ensures fresh(f.Keys) && Current(f)
    ensures Current(h)
  {
    newData, f := DictTransform(data, TYPESCRIPT, h, t);
  }
}
