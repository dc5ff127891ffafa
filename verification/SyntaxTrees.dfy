/** Syntax trees on the heap: the statement list of the grammar, the copy of a macro's argument, and the
    evaluator overwriting the nodes of the tree it is given (asm-parse.y, asm-ast.c, bas.c). */
module SyntaxTrees {
  import opened Words
  import opened Ast
  import opened Scopes
  import opened Symbols
  import opened Eval

  // ----- statement lists -----

  /** An AST_TUPLE of a statement and a tuple or nil. */
  class Tuple<T> {
    const first: T
    const rest: Tuple?<T>

    constructor (first: T, rest: Tuple?<T>)
      ensures this.first == first && this.rest == rest
    {
      this.first, this.rest := first, rest;
    }
  }

  /** The chain of tuples holds these elements, in this order. */
  ghost predicate Chains<T(!new)>(head: Tuple?<T>, elements: seq<T>)
    decreases |elements|
  {
    if head == null then elements == []
    else elements != [] && head.first == elements[0] && Chains(head.rest, elements[1..])
  }

  function Reversed<T>(s: seq<T>): (r: seq<T>)
    ensures |r| == |s| && forall i :: 0 <= i < |s| ==> r[i] == s[|s| - 1 - i]
  {
    seq(|s|, i requires 0 <= i < |s| => s[|s| - 1 - i])
  }

  /** The rule `stmts`, one statement at a time: each new tuple points back at the tuples so far. */
  method Stmts<T(!new)>(stmts: seq<T>) returns (head: Tuple?<T>)
    ensures Chains(head, Reversed(stmts))
  {
    head := null;
    for i := 0 to |stmts|
      invariant Chains(head, Reversed(stmts[..i]))
    {
      assert Reversed(stmts[..i + 1]) == [stmts[i]] + Reversed(stmts[..i]);
      head := new Tuple(stmts[i], head);
      assert Reversed(stmts[..i + 1])[1..] == Reversed(stmts[..i]);
    }
    assert stmts[..|stmts|] == stmts;
  }

  /** `mk_list`: count the tuples, then fill the array from its end. */
  method MkList<T(0, !new)>(head: Tuple?<T>, ghost elements: seq<T>) returns (nodes: array<T>)
    requires Chains(head, elements)
    ensures fresh(nodes) && nodes[..] == Reversed(elements)
  {
    var length := 0;
    var ptr := head;
    ghost var left := elements;
    while ptr != null
      invariant Chains(ptr, left) && length + |left| == |elements|
      decreases |left|
    {
      length := length + 1;
      ptr, left := ptr.rest, left[1..];
    }
    nodes := new T[length];
    ptr, left := head, elements;
    var i := length;
    while ptr != null
      invariant 0 <= i <= nodes.Length == |elements| && i == |left| && left == elements[length - i..]
      invariant Chains(ptr, left)
      invariant forall k :: i <= k < nodes.Length ==> nodes[k] == elements[nodes.Length - 1 - k]
      decreases |left|
    {
      i := i - 1;
      nodes[i] := ptr.first;
      ptr, left := ptr.rest, left[1..];
    }
  }

  /** The rule `file`: the list has the statements of the source in the order of the source. */
  method File<T(0, !new)>(stmts: seq<T>) returns (nodes: array<T>)
    ensures fresh(nodes) && nodes[..] == stmts
  {
    var head := Stmts(stmts);
    nodes := MkList(head, Reversed(stmts));
    assert Reversed(Reversed(stmts)) == stmts;
  }

  // ----- trees -----

  /** `enum ast_node_e`. */
  datatype Tag =
    | TupleNode | InstrNode | LabelNode | OrgNode | NilNode | NumberNode | NameNode | SymbolNode | ListNode | MacroNode
    | MinusNode | PlusNode

  predicate IsLeaf(tag: Tag) {
    tag.LabelNode? || tag.OrgNode? || tag.NumberNode? || tag.NameNode? || tag.SymbolNode?
  }

  predicate IsPair(tag: Tag) {
    tag.TupleNode? || tag.InstrNode? || tag.MacroNode? || tag.MinusNode? || tag.PlusNode?
  }

  /** What a tree spells. */
  datatype Tree =
    | Nil
    | Leaf(tag: Tag, number: Word, text: string)
    | Pair(tag: Tag, left: Tree, right: Tree)
    | Elements(items: seq<Tree>)

  /** `struct ast_node`. Nil nodes are constant, since nothing ever writes to one. */
  class Node {
    const nil: bool
    var tag: Tag
    var number: Word
    var text: string
    var left: Node?
    var right: Node?
    var nodes: seq<Node>
    var heap: bool
    ghost var repr: set<Node>
    ghost var nils: set<Node>

    /** A node of `calloc`. */
    constructor Blank(heap: bool)
      ensures !nil && fresh(this) && this.heap == heap
    {
      nil, tag, number, text, left, right, nodes, this.heap := false, TupleNode, 0, "", null, null, [], heap;
      repr, nils := {}, {};
    }

    /** `ast_nil_node`. */
    constructor NilNode()
      ensures nil
    {
      nil, tag, number, text, left, right, nodes, heap := true, Tag.NilNode, 0, "", null, null, [], false;
      repr, nils := {}, {};
    }

    /** `*copy = *node` for the nodes without children. */
    method SetLeaf(tag: Tag, number: Word, text: string)
      requires !nil && IsLeaf(tag)
      modifies this
      ensures Valid() && Value() == Leaf(tag, number, text) && repr == {this} && nils == {} && heap == old(heap)
    {
      this.tag, this.number, this.text := tag, number, text;
      repr, nils := {this}, {};
    }

    method SetPair(tag: Tag, l: Node, r: Node, nil: Node)
      requires !this.nil && IsPair(tag) && Whole(l) && Whole(r) && this !in Own(l) && this !in Own(r)
      requires this != l && this != r && Own(l) !! Own(r) && Ends(l, {nil}) && Ends(r, {nil})
      modifies this
      ensures Valid() && Value() == old(Pair(tag, Spelling(l), Spelling(r)))
      ensures repr == {this} + old(Own(l)) + old(Own(r)) && nils == {nil} && heap == old(heap)
    {
      hide Valid, Value;
      this.tag, left, right := tag, l, r;
      repr := {this} + Own(l) + Own(r);
      nils := {nil};
      PairValid(this);
    }

    method SetList(elements: seq<Node>, ghost within: set<Node>, ghost nils: set<Node>)
      requires !nil && Forest(elements, within, nils) && this !in within
      modifies this
      ensures Valid() && Value() == old(Elements(Spellings(elements, within, nils, |elements|)))
      ensures repr == {this} + within && this.nils == nils && heap == old(heap)
    {
      hide Valid, Value, Forest, Spellings;
      tag, nodes := ListNode, elements;
      repr, this.nils := {this} + within, nils;
      ListValid(this, within);
    }

    /** The node becomes a number and lets go of its children. */
    method SetNumber(value: Word)
      requires !nil
      modifies this
      ensures Valid() && Value() == Spell(Number(value)) && repr == {this} && nils == old(nils)
    {
      tag, number, text, left, right := NumberNode, value, "", null, null;
      repr := {this};
    }

    /** The operands of a sum have changed and may reach fewer nodes. */
    ghost method Rejoin(l: Expr, r: Expr)
      requires !nil && (tag.MinusNode? || tag.PlusNode?) && left != null && right != null && !left.nil && !right.nil
      requires left.Valid() && right.Valid() && this !in left.repr && this !in right.repr && left.repr !! right.repr
      requires left != this && right != this && left.nils <= nils && right.nils <= nils
        && left.Value() == Spell(l) && right.Value() == Spell(r)
      modifies this`repr
      ensures Valid() && Value() == Spell(if tag.MinusNode? then Minus(l, r) else Plus(l, r))
      ensures repr == {this} + left.repr + right.repr
    {
      hide Valid, Value;
      repr := {this} + left.repr + right.repr;
      SumNode(this, l, r);
    }

    /** A proper tree: no node is reached twice but nil nodes, and no list has a nil element. `repr` holds its
        nodes and `nils` the nil nodes at its ends. */
    ghost predicate Valid()
      reads this, repr
      decreases repr, 1
    {
      && !nil && this in repr && !tag.NilNode?
      && (IsPair(tag) ==>
            && left != null && right != null
            && Below(left) && Below(right)
            && (left.nil || right.nil || left.repr !! right.repr))
      && (tag.ListNode? ==> Forest(nodes, repr - {this}, nils))
    }

    /** A child: a nil node, or a tree within this one. */
    ghost predicate Below(child: Node)
      requires this in repr
      reads this, repr
      decreases repr, 0
    {
      if child.nil then child in nils
      else child in repr && child.repr <= repr && this !in child.repr && child.nils <= nils && child.Valid()
    }

    /** The tree as a value. */
    ghost function Value(): Tree
      requires Valid()
      reads this, repr
      decreases repr, 1
    {
      if IsPair(tag) then Pair(tag, ValueBelow(left), ValueBelow(right))
      else if tag.ListNode? then Elements(Spellings(nodes, repr - {this}, nils, |nodes|))
      else Leaf(tag, number, text)
    }

    ghost function ValueBelow(child: Node): Tree
      requires this in repr && Below(child)
      reads this, repr
      decreases repr, 0
    {
      if child.nil then Nil else child.Value()
    }
  }

  /** Trees without a nil among them and without nodes in common, made of the given nodes. */
  ghost predicate Forest(nodes: seq<Node>, within: set<Node>, nils: set<Node>)
    reads within
    decreases within, 2
  {
    && (forall i :: 0 <= i < |nodes| ==>
          && !nodes[i].nil && nodes[i] in within && nodes[i].repr <= within && nodes[i].nils <= nils
          && nodes[i].Valid())
    && forall i, j :: 0 <= i < j < |nodes| ==> nodes[i].repr !! nodes[j].repr
  }

  ghost function Spellings(nodes: seq<Node>, within: set<Node>, nils: set<Node>, k: nat): (r: seq<Tree>)
    requires Forest(nodes, within, nils) && k <= |nodes|
    ensures |r| == k && forall i :: 0 <= i < k ==> r[i] == nodes[i].Value()
    reads within
    decreases within, 2, k
  {
    if k == 0 then [] else Spellings(nodes, within, nils, k - 1) + [nodes[k - 1].Value()]
  }

  ghost predicate Whole(node: Node)
    reads node, node.repr
  {
    node.nil || node.Valid()
  }

  ghost function Spelling(node: Node): Tree
    requires Whole(node)
    reads node, node.repr
  {
    if node.nil then Nil else node.Value()
  }

  /** The nodes of a tree that are its own. */
  ghost function Own(node: Node): set<Node>
    reads node
  {
    if node.nil then {} else node.repr
  }

  /** The nil nodes a tree ends in are among these. */
  ghost predicate Ends(node: Node, nils: set<Node>)
    reads node
  {
    if node.nil then node in nils else node.nils <= nils
  }

  lemma PairValid(node: Node)
    requires !node.nil && IsPair(node.tag) && node.left != null && node.right != null
    requires Whole(node.left) && Whole(node.right) && Own(node.left) !! Own(node.right)
    requires node !in Own(node.left) && node !in Own(node.right)
    requires node.repr == {node} + Own(node.left) + Own(node.right)
    requires Ends(node.left, node.nils) && Ends(node.right, node.nils)
    ensures node.Valid() && node.Value() == Pair(node.tag, Spelling(node.left), Spelling(node.right))
  {
    WholeIn(node.left);
    WholeIn(node.right);
    assert node.Below(node.left) && node.Below(node.right);
  }

  lemma WholeIn(node: Node)
    requires Whole(node)
    ensures !node.nil ==> node in node.repr
  {}

  lemma PairBelow(node: Node)
    requires node.Valid() && IsPair(node.tag)
    ensures node.left != null && node.right != null && node in node.repr
    ensures Whole(node.left) && Whole(node.right) && Own(node.left) !! Own(node.right)
    ensures Own(node.left) <= node.repr - {node} && Own(node.right) <= node.repr - {node}
    ensures node.left != node && node.right != node
    ensures Ends(node.left, node.nils) && Ends(node.right, node.nils)
    ensures node.Value() == Pair(node.tag, Spelling(node.left), Spelling(node.right))
  {
    assert node.Below(node.left) && node.Below(node.right);
  }

  lemma ListValid(node: Node, within: set<Node>)
    requires !node.nil && node.tag.ListNode? && node !in within && node.repr == {node} + within
    requires Forest(node.nodes, within, node.nils)
    ensures node.Valid() && node.Value() == Elements(Spellings(node.nodes, within, node.nils, |node.nodes|))
  {
    assert node.repr - {node} == within;
  }

  lemma ListBelow(node: Node)
    requires node.Valid() && node.tag.ListNode?
    ensures node in node.repr && Forest(node.nodes, node.repr - {node}, node.nils)
    ensures node.Value() == Elements(Spellings(node.nodes, node.repr - {node}, node.nils, |node.nodes|))
  {}

  lemma LeafBelow(node: Node)
    requires node.Valid() && !IsPair(node.tag) && !node.tag.ListNode?
    ensures IsLeaf(node.tag) && node.Value() == Leaf(node.tag, node.number, node.text) && node in node.repr
  {}

  lemma ForestAt(nodes: seq<Node>, within: set<Node>, nils: set<Node>, i: nat)
    requires Forest(nodes, within, nils) && i < |nodes|
    ensures !nodes[i].nil && Whole(nodes[i]) && nodes[i].Valid() && Own(nodes[i]) <= within && nodes[i] in within
    ensures Spellings(nodes, within, nils, i + 1) == Spellings(nodes, within, nils, i) + [nodes[i].Value()]
  {}

  lemma ForestAppend(nodes: seq<Node>, within: set<Node>, nils: set<Node>, last: Node)
    requires Forest(nodes, within, nils) && !last.nil && last.Valid() && last.repr !! within && last.nils <= nils
    ensures Forest(nodes + [last], within + last.repr, nils)
    ensures Spellings(nodes + [last], within + last.repr, nils, |nodes| + 1)
         == Spellings(nodes, within, nils, |nodes|) + [last.Value()]
  {
    hide Node.Value;
    var more, all := nodes + [last], within + last.repr;
    assert last in last.repr by { WholeIn(last); }
    assert Forest(more, all, nils);
    forall i | 0 <= i < |nodes|
      ensures Spellings(more, all, nils, |nodes| + 1)[i] == Spellings(nodes, within, nils, |nodes|)[i]
    {
      assert more[i] == nodes[i];
    }
  }

  /** A tree of new nodes, apart from `copy`, ending in the nil node that everybody shares. */
  ghost predicate CopyOf(copy: Node, value: Tree, nil: Node)
    reads copy, copy.repr
  {
    if value.Nil? then copy == nil else !copy.nil && copy.Valid() && copy.Value() == value && copy.nils <= {nil}
  }

  lemma SpellingNil(node: Node)
    requires Whole(node)
    ensures Spelling(node).Nil? <==> node.nil
  {}

  /** `ast_copy_tree`, into a node already allocated if there is one: a tree of new nodes that spells the
      same, and shares no node with it but the nil node. */
  method CopyTree(node: Node, prealloced: Node?, nil: Node) returns (copy: Node)
    requires Whole(node) && nil.nil
    requires prealloced != null ==> !prealloced.nil && prealloced !in Own(node) && prealloced != node
    modifies if prealloced == null then {} else {prealloced}
    ensures Whole(node) && Spelling(node) == old(Spelling(node))
    ensures CopyOf(copy, Spelling(node), nil)
    ensures !node.nil ==> (if prealloced == null then fresh(copy) else copy == prealloced)
    ensures !node.nil ==> fresh(copy.repr - {copy}) && copy.heap == (prealloced == null || old(prealloced.heap))
    decreases Own(node), 0
  {
    hide Node.Valid, Node.Value, Forest, Spellings;
    SpellingNil(node);
    if node.nil {
      return nil;
    }
    if prealloced == null {
      copy := new Node.Blank(true);
    } else {
      copy := prealloced;
    }
    if IsPair(node.tag) {
      PairBelow(node);
      CopyPair(node, copy, nil);
    } else if node.tag.ListNode? {
      ListBelow(node);
      var elements, within := CopyElements(node.nodes, node.repr - {node}, node.nils, nil);
      copy.SetList(elements, within, {nil});
    } else {
      LeafBelow(node);
      copy.SetLeaf(node.tag, node.number, node.text);
    }
  }

  /** The nodes with two children. */
  method CopyPair(node: Node, copy: Node, nil: Node)
    requires node.Valid() && IsPair(node.tag) && nil.nil && !copy.nil && copy !in node.repr && copy != node
    modifies copy
    ensures node.Valid() && node.Value() == old(node.Value())
    ensures CopyOf(copy, node.Value(), nil) && fresh(copy.repr - {copy}) && copy.heap == old(copy.heap)
    decreases node.repr - {node}, 1
  {
    hide Node.Valid, Node.Value, Forest, Spellings;
    PairBelow(node);
    SpellingNil(node.left);
    SpellingNil(node.right);
    var l := CopyTree(node.left, null, nil);
    var r := CopyTree(node.right, null, nil);
    copy.SetPair(node.tag, l, r, nil);
  }

  /** The loop over a list's nodes: each is copied into an element of the new array. */
  method CopyElements(nodes: seq<Node>, ghost within: set<Node>, ghost nils: set<Node>, nil: Node)
    returns (elements: seq<Node>, ghost own: set<Node>)
    requires Forest(nodes, within, nils) && nil.nil
    ensures Forest(nodes, within, nils) && Forest(elements, own, {nil}) && fresh(own)
    ensures |elements| == |nodes|
    ensures Spellings(elements, own, {nil}, |elements|) == Spellings(nodes, within, nils, |nodes|)
    ensures forall i :: 0 <= i < |elements| ==> !elements[i].heap
    decreases within, 1
  {
    hide Node.Valid, Node.Value, Forest, Spellings;
    elements, own := [], {};
    NoElements(nodes, within, nils, {nil});
    for i := 0 to |nodes|
      invariant |elements| == i && fresh(own)
      invariant Forest(nodes, within, nils) && Forest(elements, own, {nil})
      invariant Spellings(elements, own, {nil}, i) == Spellings(nodes, within, nils, i)
      invariant forall k :: 0 <= k < i ==> elements[k] in own && !elements[k].heap
    {
      ForestAt(nodes, within, nils, i);
      SpellingNil(nodes[i]);
      var element := new Node.Blank(false);
      var copy := CopyTree(nodes[i], element, nil);
      ForestAppend(elements, own, {nil}, copy);
      WholeIn(copy);
      elements, own := elements + [copy], own + copy.repr;
    }
  }

  lemma NoElements(nodes: seq<Node>, within: set<Node>, nils: set<Node>, ends: set<Node>)
    requires Forest(nodes, within, nils)
    ensures Forest([], {}, ends) && Spellings([], {}, ends, 0) == Spellings(nodes, within, nils, 0)
  {}

  // ----- evaluation in place -----

  /** The tree of an expression. */
  function Spell(e: Expr): Tree {
    match e
    case Number(v) => Leaf(NumberNode, v, "")
    case Name(n) => Leaf(SymbolNode, 0, n)
    case Minus(l, r) => Pair(MinusNode, Spell(l), Spell(r))
    case Plus(l, r) => Pair(PlusNode, Spell(l), Spell(r))
  }

  /** A node that spells an expression, and how it does. */
  lemma ExprNode(node: Node, e: Expr)
    requires node.Valid() && node.Value() == Spell(e)
    ensures node in node.repr && !node.nil
    ensures node.tag == match e case Number(_) => NumberNode case Name(_) => SymbolNode case Minus(_, _) => MinusNode
                                case Plus(_, _) => PlusNode
    ensures e.Number? ==> node.number == e.value
    ensures e.Name? ==> node.text == e.name
    ensures e.Minus? || e.Plus? ==>
      && node.left != null && node.right != null && !node.left.nil && !node.right.nil
      && node.left.Valid() && node.right.Valid() && node.left.repr !! node.right.repr
      && node.left.repr <= node.repr - {node} && node.right.repr <= node.repr - {node}
      && node.left.nils <= node.nils && node.right.nils <= node.nils
      && node.left.Value() == Spell(e.left) && node.right.Value() == Spell(e.right)
  {
    if IsPair(node.tag) {
      PairBelow(node);
    }
  }

  /** A sum with its operands. */
  lemma SumNode(node: Node, l: Expr, r: Expr)
    requires !node.nil && (node.tag.MinusNode? || node.tag.PlusNode?) && node.left != null && node.right != null
    requires !node.left.nil && !node.right.nil && node.left.Valid() && node.right.Valid()
    requires node !in node.left.repr && node !in node.right.repr && node.left.repr !! node.right.repr
    requires node.left.nils <= node.nils && node.right.nils <= node.nils
    requires node.repr == {node} + node.left.repr + node.right.repr
    requires node.left.Value() == Spell(l) && node.right.Value() == Spell(r)
    ensures node.Valid() && node.Value() == Spell(if node.tag.MinusNode? then Minus(l, r) else Plus(l, r))
  {
    PairValid(node);
  }

  /** `eval_expr` on a tree of nodes that spells e: the nodes are overwritten so that the tree spells what
      EvalExpr makes of e, and no node outside the tree is touched. The trees held by symbols are values, and
      are overwritten in the tables. */
  method EvalTree(syms: SymbolStore, c: nat, node: Node, partial: bool, ghost e: Expr)
    returns (rc: EvalResult, ghost r: Expr)
    requires node.Valid() && node.Value() == Spell(e) && syms.Valid() && c < |syms.contexts|
    modifies syms, node.repr
    ensures node.Valid() && node.Value() == Spell(r) && node.repr <= old(node.repr) && node.nils == old(node.nils)
    ensures syms.Valid() && Stable(old(syms.contexts), syms.contexts)
    ensures syms.Scopes(MnemonicType) == old(syms.Scopes(MnemonicType))
    ensures EvalPost(old(syms.Scopes(LabelType)), syms.Scopes(LabelType), c, e, partial, rc, r)
    decreases e, 2
  {
    hide ScopesOf, ContextsOk, Stable, Node.Valid, Node.Value, EvalPost;
    ExprNode(node, e);
    r := e;
    if node.tag.SymbolNode? {
      var value;
      rc, value := EvalName(syms, c, Name(node.text), partial);
      NameStays(old(syms.Scopes(LabelType)), syms.Scopes(LabelType), c, e, partial, rc, value);
      if rc == EvalOk {
        node.SetNumber(value.value);
        r := value;
      }
    } else if node.tag.NumberNode? {
      StableRefl(syms.contexts);
      NumberStays(syms.Scopes(LabelType), c, e, partial);
      rc := EvalOk;
    } else {
      rc, r := EvalBranch(syms, c, node, partial, e);
    }
  }

  /** A name that does not resolve stays as it is. */
  lemma NameStays(S: seq<Scope>, T: seq<Scope>, c: nat, e: Expr, partial: bool, rc: EvalResult, r: Expr)
    requires Chained(S) && c < |S| && e.Name? && EvalPost(S, T, c, e, partial, rc, r)
    ensures if rc == EvalOk then r.Number? else r == e
  {}

  lemma NumberStays(S: seq<Scope>, c: nat, e: Expr, partial: bool)
    requires Chained(S) && c < |S| && e.Number?
    ensures EvalPost(S, S, c, e, partial, EvalOk, e)
  {}

  /** The cases AST_MINUS and AST_PLUS: the operands are evaluated in place, and if both have become numbers
      the node becomes their result and lets go of them. */
  method EvalBranch(syms: SymbolStore, c: nat, node: Node, partial: bool, ghost e: Expr)
    returns (rc: EvalResult, ghost r: Expr)
    requires node.Valid() && node.Value() == Spell(e) && (e.Minus? || e.Plus?) && syms.Valid() && c < |syms.contexts|
    modifies syms, node.repr
    ensures node.Valid() && node.Value() == Spell(r) && node.repr <= old(node.repr) && node.nils == old(node.nils)
    ensures syms.Valid() && Stable(old(syms.contexts), syms.contexts)
    ensures syms.Scopes(MnemonicType) == old(syms.Scopes(MnemonicType))
    ensures EvalPost(old(syms.Scopes(LabelType)), syms.Scopes(LabelType), c, e, partial, rc, r)
    decreases e, 1
  {
    hide ScopesOf, ContextsOk, Stable, Node.Valid, Node.Value, EvalPost;
    ExprNode(node, e);
    var l, s := node.left, node.right;
    ghost var a, b;
    var rcA, rcB;
    rcA, rcB, a, b := EvalBoth(syms, c, l, s, partial, e);
    ExprNode(l, a);
    ExprNode(s, b);
    if rcA == EvalOk && rcB == EvalOk && l.tag == s.tag {
      var x, y := l.number, s.number;
      var v := if node.tag.MinusNode? then Wrap(x as int - y as int) else Wrap(x as int + y as int);
      node.SetNumber(v);
      return EvalOk, Number(v);
    }
    node.Rejoin(a, b);
    r := if e.Minus? then Minus(a, b) else Plus(a, b);
    rc := if partial && (rcA == EvalPartial || rcB == EvalPartial) then EvalPartial else EvalError;
  }

  /** Both operands of the sum e, one after the other. */
  method EvalBoth(syms: SymbolStore, c: nat, l: Node, s: Node, partial: bool, ghost e: Expr)
    returns (rcA: EvalResult, rcB: EvalResult, ghost a: Expr, ghost b: Expr)
    requires l.Valid() && s.Valid() && l.repr !! s.repr && syms.Valid() && c < |syms.contexts|
    requires (e.Minus? || e.Plus?) && l.Value() == Spell(e.left) && s.Value() == Spell(e.right)
    modifies syms, l.repr, s.repr
    ensures l.Valid() && s.Valid() && l.repr <= old(l.repr) && s.repr <= old(s.repr)
    ensures l.nils == old(l.nils) && s.nils == old(s.nils)
    ensures l.Value() == Spell(a) && s.Value() == Spell(b)
    ensures syms.Valid() && Stable(old(syms.contexts), syms.contexts)
    ensures syms.Scopes(MnemonicType) == old(syms.Scopes(MnemonicType))
    ensures (rcA == EvalOk ==> a.Number?) && (rcB == EvalOk ==> b.Number?)
    ensures var (rc, r) := SumResult(e.Minus?, partial, rcA, rcB, a, b);
      EvalPost(old(syms.Scopes(LabelType)), syms.Scopes(LabelType), c, e, partial, rc, r)
    decreases e, 0
  {
    hide ScopesOf, ContextsOk, Stable, EvalPost, Node.Valid, Node.Value;
    ghost var S, cs := syms.Scopes(LabelType), syms.contexts;
    ExprNode(l, e.left);
    ExprNode(s, e.right);
    rcA, a := EvalTree(syms, c, l, partial, e.left);
    ghost var T, ds := syms.Scopes(LabelType), syms.contexts;
    rcB, b := EvalTree(syms, c, s, partial, e.right);
    StableCompose(cs, ds, syms.contexts);
    BothSides(S, T, syms.Scopes(LabelType), c, e, partial, rcA, rcB, a, b);
  }

  lemma CopyHolds(copy: Node, value: Tree, nil: Node)
    requires CopyOf(copy, value, nil) && !value.Nil?
    ensures !copy.nil && copy.Valid() && copy.Value() == value && copy in copy.repr
  {}

  /** How an argument is bound (bas.c:411-412): a copy is evaluated as far as possible, and the argument
      itself stays what it was. */
  method CopyThenEvaluate(syms: SymbolStore, c: nat, actual: Node, nil: Node, ghost e: Expr)
    returns (rc: EvalResult, copy: Node)
    requires actual.Valid() && actual.Value() == Spell(e) && nil.nil && syms.Valid() && c < |syms.contexts|
    modifies syms
    ensures actual.Valid() && actual.Value() == Spell(e)
    ensures copy.Valid() && fresh(copy.repr)
    ensures syms.Valid() && syms.Scopes(LabelType) == old(syms.Scopes(LabelType))
    ensures copy.Value() == Spell(Residual(syms.Scopes(LabelType), c, e))
    ensures rc == if Residual(syms.Scopes(LabelType), c, e).Number? then EvalOk else EvalPartial
  {
    hide ScopesOf, ContextsOk, Stable, Node.Valid, Node.Value, Residual;
    ExprNode(actual, e);
    copy := CopyTree(actual, null, nil);
    CopyHolds(copy, Spell(e), nil);
    ghost var r;
    rc, r := EvalTree(syms, c, copy, true, e);
  }
}
