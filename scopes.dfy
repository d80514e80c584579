/** Scope resolution of src/parse/parser.ts (lines 46-88 and 259-721): the
    region tree that `tum`/`face` … `huc finis est.` cut the token list into,
    the tree of scopes with the names each region declares, and `match`, which
    picks the scopes around one token.

    Each imperative routine of the source is a method here, proved against a
    function that says what it computes: `ScanCodeBlock` against `CodeBlocks`,
    `Match` against `Chain`, and the explicit-stack `ScanNames` against the
    recursive `ScanItems`. */
module Scopes {
  import opened Either
  import opened Errors
  import opened Lexer
  import Builtins

  // ---------------------------------------------------------------------------
  // Regions (`CodeBlockStructure`).

  /** A `CodeBlockItem`: a token, or a nested region. */
  datatype Item = Leaf(token: Token) | Block(region: Region)

  /** A region: its items, the index of its first token and the index where it
      stops (its `huc finis est.` when there is one). */
  datatype Region = Region(children: seq<Item>, start: int, end: int)

  predicate IsOpener(k: TokenType) { k == Then || k == Do }

  /** The tokens that open, close or carry no meaning inside a region. */
  predicate IsStructural(k: TokenType) { IsOpener(k) || k == EndOfBlock }

  /** The region that `scanCodeBlock(from)` builds. */
  function CodeBlocks(tokens: seq<Token>, from: nat): (r: Region)
    requires from <= |tokens|
    ensures r.start == from <= r.end
    decreases |tokens| - from, 1
  {
    Gather(tokens, from, from, [])
  }

  /** The rest of the scan from index `current`, with the items `acc` already
      gathered. An opener starts a nested region at the next index and the scan
      resumes after that region's end. */
  function Gather(tokens: seq<Token>, from: nat, current: nat, acc: seq<Item>): (r: Region)
    requires from <= current
    ensures r.start == from && current <= r.end
    decreases |tokens| - current, 0
  {
    if current >= |tokens| || tokens[current].kind == EndOfBlock then Region(acc, from, current)
    else if IsOpener(tokens[current].kind) then
      var c := CodeBlocks(tokens, current + 1);
      Gather(tokens, from, c.end + 1, acc + [Block(c)])
    else Gather(tokens, from, current + 1, acc + [Leaf(tokens[current])])
  }

  method ScanCodeBlock(tokens: seq<Token>, from: nat) returns (s: Region)
    requires from <= |tokens|
    ensures s == CodeBlocks(tokens, from)
    decreases |tokens| - from
  {
    var children: seq<Item> := [];
    var current := from;
    while current < |tokens| && tokens[current].kind != EndOfBlock
      invariant from <= current
      invariant Gather(tokens, from, current, children) == CodeBlocks(tokens, from)
      decreases |tokens| - current
    {
      var token := tokens[current];
      if IsOpener(token.kind) {
        var c := ScanCodeBlock(tokens, current + 1);
        children := children + [Block(c)];
        current := c.end + 1;
      } else {
        children := children + [Leaf(token)];
        current := current + 1;
      }
    }
    s := Region(children, from, current);
  }

  // What the region tree is: flattening it, with each nested region's opener
  // and terminator put back, gives the tokens it was cut from.

  function Opener(tokens: seq<Token>, r: Region): seq<Token>
  {
    if 1 <= r.start <= |tokens| then [tokens[r.start - 1]] else []
  }

  function Closer(tokens: seq<Token>, r: Region): seq<Token>
  {
    if 0 <= r.end < |tokens| then [tokens[r.end]] else []
  }

  function Flatten(tokens: seq<Token>, items: seq<Item>): seq<Token>
    decreases items, 1
  {
    if items == [] then [] else ItemTokens(tokens, items[0]) + Flatten(tokens, items[1..])
  }

  function ItemTokens(tokens: seq<Token>, it: Item): seq<Token>
    decreases it, 0
  {
    match it
    case Leaf(t) => [t]
    case Block(r) => Opener(tokens, r) + Flatten(tokens, r.children) + Closer(tokens, r)
  }

  function Min(a: int, b: int): int { if a <= b then a else b }

  /** A nested region `c` between indices `lo` and `hi` of its parent: it starts
      right after an opener and ends at a terminator or past the last token. */
  predicate ChildFits(tokens: seq<Token>, lo: int, hi: int, c: Region)
  {
    0 <= lo < c.start <= c.end < hi && c.start <= |tokens| && IsOpener(tokens[c.start - 1].kind)
    && (c.end < |tokens| ==> tokens[c.end].kind == EndOfBlock)
  }

  /** Leaves are never openers or terminators; nested regions fit inside their
      parent, in increasing order, with at least one token between them. */
  predicate WellNested(tokens: seq<Token>, r: Region)
    decreases r
  {
    (forall i :: 0 <= i < |r.children| && r.children[i].Leaf? ==> !IsStructural(r.children[i].token.kind))
    && (forall i :: 0 <= i < |r.children| && r.children[i].Block? ==>
          ChildFits(tokens, r.start, r.end, r.children[i].region) && WellNested(tokens, r.children[i].region))
    && (forall i, j :: 0 <= i < j < |r.children| && r.children[i].Block? && r.children[j].Block? ==>
          r.children[i].region.end + 1 < r.children[j].region.start)
  }

  lemma {:induction false} FlattenAppend(tokens: seq<Token>, items: seq<Item>, it: Item)
    ensures Flatten(tokens, items + [it]) == Flatten(tokens, items) + ItemTokens(tokens, it)
    decreases |items|
  {
    if items == [] {
      assert [it][1..] == [];
    } else {
      assert (items + [it])[1..] == items[1..] + [it];
      FlattenAppend(tokens, items[1..], it);
    }
  }

  /** The facts the loop of `scanCodeBlock` keeps about what it has gathered:
      the items flatten back to the tokens scanned so far, and they are well
      nested inside the indices from `from` to `current`. */
  predicate Gathered(tokens: seq<Token>, from: nat, current: nat, acc: seq<Item>)
    requires from <= current && from <= |tokens|
  {
    Flatten(tokens, acc) == tokens[from..Min(current, |tokens|)] && NestedItems(tokens, from, current, acc)
  }

  predicate NestedItems(tokens: seq<Token>, lo: int, hi: int, acc: seq<Item>)
  {
    (forall i :: 0 <= i < |acc| && acc[i].Leaf? ==> !IsStructural(acc[i].token.kind))
    && (forall i :: 0 <= i < |acc| && acc[i].Block? ==>
          ChildFits(tokens, lo, hi, acc[i].region) && WellNested(tokens, acc[i].region))
    && (forall i, j :: 0 <= i < j < |acc| && acc[i].Block? && acc[j].Block? ==>
          acc[i].region.end + 1 < acc[j].region.start)
  }

  /** The items of a region are well nested between its start and end. */
  lemma WellNestedItems(tokens: seq<Token>, r: Region)
    ensures WellNested(tokens, r) <==> NestedItems(tokens, r.start, r.end, r.children)
  {
  }

  /** A region `r` cut from `tokens` at `from`: it stops at a terminator or
      past the last token, flattens back to the tokens from its start to its
      end, and is well nested. */
  predicate RegionShape(tokens: seq<Token>, from: nat, r: Region)
    requires from <= r.end && from <= |tokens|
  {
    (r.end < |tokens| ==> tokens[r.end].kind == EndOfBlock)
    && Flatten(tokens, r.children) == tokens[from..Min(r.end, |tokens|)]
    && WellNested(tokens, r)
  }

  /** Every region `scanCodeBlock` builds has the shape of `RegionShape`. */
  lemma {:induction false} CodeBlocksShape(tokens: seq<Token>, from: nat)
    requires from <= |tokens|
    ensures RegionShape(tokens, from, CodeBlocks(tokens, from))
    decreases |tokens| - from, 2
  {
    GatherShape(tokens, from, from, []);
  }

  lemma {:induction false} GatherShape(tokens: seq<Token>, from: nat, current: nat, acc: seq<Item>)
    requires from <= current <= |tokens|
    requires Gathered(tokens, from, current, acc)
    ensures RegionShape(tokens, from, Gather(tokens, from, current, acc))
    decreases |tokens| - current, 1
  {
    if current >= |tokens| || tokens[current].kind == EndOfBlock {
      WellNestedItems(tokens, Region(acc, from, current));
    } else if IsOpener(tokens[current].kind) {
      GatherShapeAtOpener(tokens, from, current, acc);
    } else {
      var acc' := acc + [Leaf(tokens[current])];
      GatheredLeaf(tokens, from, current, acc);
      assert Gather(tokens, from, current, acc) == Gather(tokens, from, current + 1, acc');
      GatherShape(tokens, from, current + 1, acc');
    }
  }

  lemma {:induction false} GatherShapeAtOpener(tokens: seq<Token>, from: nat, current: nat, acc: seq<Item>)
    requires from <= current < |tokens| && IsOpener(tokens[current].kind)
    requires Gathered(tokens, from, current, acc)
    ensures RegionShape(tokens, from, Gather(tokens, from, current, acc))
    decreases |tokens| - current, 0
  {
    var c := CodeBlocks(tokens, current + 1);
    var next := c.end + 1;
    var acc' := acc + [Block(c)];
    var g := Gather(tokens, from, next, acc');
    assert RegionShape(tokens, from, g) by {
      CodeBlocksShape(tokens, current + 1);
      GatheredBlock(tokens, from, current, acc, c);
      if next <= |tokens| {
        GatherShape(tokens, from, next, acc');
      } else {
        GatherShapePastEnd(tokens, from, next, acc');
      }
    }
    GatherAtOpener(tokens, from, current, acc);
    ShapeOfEqual(tokens, from, g, Gather(tokens, from, current, acc));
  }

  /** A nested region that runs past the last token ends the scan. */
  lemma GatherShapePastEnd(tokens: seq<Token>, from: nat, current: nat, acc: seq<Item>)
    requires from <= |tokens| < current
    requires Gathered(tokens, from, current, acc)
    ensures RegionShape(tokens, from, Gather(tokens, from, current, acc))
  {
    assert Gather(tokens, from, current, acc) == Region(acc, from, current);
    WellNestedItems(tokens, Region(acc, from, current));
  }

  lemma ShapeOfEqual(tokens: seq<Token>, from: nat, a: Region, b: Region)
    requires a == b && from <= a.end && from <= |tokens| && RegionShape(tokens, from, a)
    ensures RegionShape(tokens, from, b)
  {
  }

  /** At an opener, `scanCodeBlock` goes on past the nested region it scans. */
  lemma GatherAtOpener(tokens: seq<Token>, from: nat, current: nat, acc: seq<Item>)
    requires from <= current < |tokens| && IsOpener(tokens[current].kind)
    ensures var c := CodeBlocks(tokens, current + 1);
      Gather(tokens, from, current, acc) == Gather(tokens, from, c.end + 1, acc + [Block(c)])
  {
  }

  /** One nested region more keeps the facts of `Gathered`. */
  lemma GatheredBlock(tokens: seq<Token>, from: nat, current: nat, acc: seq<Item>, c: Region)
    requires from <= current < |tokens| && IsOpener(tokens[current].kind)
    requires Gathered(tokens, from, current, acc)
    requires c.start == current + 1 <= c.end
    requires RegionShape(tokens, current + 1, c)
    ensures Gathered(tokens, from, c.end + 1, acc + [Block(c)])
  {
    FlattenBlock(tokens, from, current, acc, c);
    NestedBlock(tokens, from, current, acc, c);
  }

  lemma NestedBlock(tokens: seq<Token>, from: nat, current: nat, acc: seq<Item>, c: Region)
    requires from <= current < |tokens| && IsOpener(tokens[current].kind)
    requires NestedItems(tokens, from, current, acc)
    requires c.start == current + 1 <= c.end
    requires c.end < |tokens| ==> tokens[c.end].kind == EndOfBlock
    requires WellNested(tokens, c)
    ensures NestedItems(tokens, from, c.end + 1, acc + [Block(c)])
  {
    var acc' := acc + [Block(c)];
    assert ChildFits(tokens, from, c.end + 1, c);
    forall i | 0 <= i < |acc'| && acc'[i].Block?
      ensures ChildFits(tokens, from, c.end + 1, acc'[i].region) && WellNested(tokens, acc'[i].region)
    {
      if i < |acc| {
        assert acc'[i] == acc[i];
      }
    }
  }

  lemma FlattenBlock(tokens: seq<Token>, from: nat, current: nat, acc: seq<Item>, c: Region)
    requires from <= current < |tokens|
    requires Flatten(tokens, acc) == tokens[from..current]
    requires c.start == current + 1 <= c.end
    requires Flatten(tokens, c.children) == tokens[current + 1..Min(c.end, |tokens|)]
    ensures Flatten(tokens, acc + [Block(c)]) == tokens[from..Min(c.end + 1, |tokens|)]
  {
    FlattenAppend(tokens, acc, Block(c));
    if c.end < |tokens| {
      SliceJoin(tokens, from, current, c.end);
    } else {
      SliceJoinOpen(tokens, from, current);
    }
  }

  lemma SliceJoin(tokens: seq<Token>, from: nat, current: nat, e: nat)
    requires from <= current < e < |tokens|
    ensures tokens[from..current] + ([tokens[current]] + tokens[current + 1..e] + [tokens[e]]) == tokens[from..e + 1]
  {
    assert tokens[from..current] + [tokens[current]] == tokens[from..current + 1];
    assert tokens[from..current + 1] + tokens[current + 1..e] == tokens[from..e];
    assert tokens[from..e] + [tokens[e]] == tokens[from..e + 1];
  }

  lemma SliceJoinOpen(tokens: seq<Token>, from: nat, current: nat)
    requires from <= current < |tokens|
    ensures tokens[from..current] + ([tokens[current]] + tokens[current + 1..] + []) == tokens[from..]
  {
    assert tokens[from..current] + [tokens[current]] == tokens[from..current + 1];
    assert tokens[from..current + 1] + tokens[current + 1..] == tokens[from..];
  }

  /** One token more keeps the facts of `Gathered`. */
  lemma GatheredLeaf(tokens: seq<Token>, from: nat, current: nat, acc: seq<Item>)
    requires from <= current < |tokens| && !IsStructural(tokens[current].kind)
    requires Gathered(tokens, from, current, acc)
    ensures Gathered(tokens, from, current + 1, acc + [Leaf(tokens[current])])
  {
    FlattenAppend(tokens, acc, Leaf(tokens[current]));
    SliceStep(tokens, from, current);
  }

  lemma SliceStep(tokens: seq<Token>, from: nat, current: nat)
    requires from <= current < |tokens|
    ensures tokens[from..current] + [tokens[current]] == tokens[from..current + 1]
  {
  }

  // ---------------------------------------------------------------------------
  // Scopes (`CodeBlock`) and `match`.

  /** A scope: the names declared in one region, each with the token that
      declared it, and the scopes of the regions nested in it. */
  datatype Scope = Scope(
    variables: map<string, Token>,
    unaryOperators: map<string, Token>,
    binaryOperators: map<string, Token>,
    children: seq<Scope>,
    start: int,
    end: int)

  predicate Contains(s: Scope, pos: int) { s.start <= pos <= s.end }

  /** The index of the first scope in `children` from `j` on that contains `pos`. */
  function FirstContaining(children: seq<Scope>, pos: int, j: nat): (r: Option<nat>)
    requires j <= |children|
    ensures r.Some? ==> (j <= r.value < |children| && Contains(children[r.value], pos)
      && forall i :: j <= i < r.value ==> !Contains(children[i], pos))
    ensures r.None? ==> forall i :: j <= i < |children| ==> !Contains(children[i], pos)
    decreases |children| - j
  {
    if j == |children| then None
    else if Contains(children[j], pos) then Some(j)
    else FirstContaining(children, pos, j + 1)
  }

  /** The first child containing `pos` is the one a left-to-right search stops at. */
  lemma FirstContainingIs(children: seq<Scope>, pos: int, i: nat)
    requires i <= |children| && forall j :: 0 <= j < i ==> !Contains(children[j], pos)
    requires i < |children| ==> Contains(children[i], pos)
    ensures FirstContaining(children, pos, 0) == if i < |children| then Some(i) else None
  {
  }

  /** What `match(root, pos)` answers: the root, then, level by level, the
      first child that contains `pos`. */
  function Chain(root: Scope, pos: int): (r: seq<Scope>)
    ensures |r| >= 1 && r[0] == root
    decreases root
  {
    match FirstContaining(root.children, pos, 0)
    case None => [root]
    case Some(j) => [root] + Chain(root.children[j], pos)
  }

  method Match(root: Scope, pos: int) returns (ret: seq<Scope>)
    ensures ret == Chain(root, pos)
  {
    ret := [root];
    var current := root;
    var searching := true;
    while searching
      invariant |ret| >= 1 && ret[|ret| - 1] == current
      invariant searching ==> ret[..|ret| - 1] + Chain(current, pos) == Chain(root, pos)
      invariant !searching ==> ret == Chain(root, pos)
      decreases searching, current
    {
      var i := 0;
      while i < |current.children| && !Contains(current.children[i], pos)
        invariant 0 <= i <= |current.children|
        invariant forall j :: 0 <= j < i ==> !Contains(current.children[j], pos)
      {
        i := i + 1;
      }
      if i < |current.children| {
        var child := current.children[i];
        assert Chain(current, pos) == [current] + Chain(child, pos) by {
          FirstContainingIs(current.children, pos, i);
        }
        assert ret[..|ret| - 1] + [current] == ret;
        ret := ret + [child];
        assert ret[..|ret| - 1] == ret[..|ret| - 2] + [current];
        current := child;
      } else {
        assert Chain(current, pos) == [current] by {
          FirstContainingIs(current.children, pos, i);
        }
        assert ret[..|ret| - 1] + [current] == ret;
        searching := false;
      }
    }
  }

  /** `child` is the first child of `parent` that contains `pos`. */
  predicate FirstChildAt(parent: Scope, child: Scope, pos: int)
  {
    exists j :: 0 <= j < |parent.children| && child == parent.children[j] && Contains(child, pos)
      && (forall i :: 0 <= i < j ==> !Contains(parent.children[i], pos))
  }

  predicate NoChildAt(s: Scope, pos: int)
  {
    forall i :: 0 <= i < |s.children| ==> !Contains(s.children[i], pos)
  }

  /** `match(root, pos)` is a path down the scope tree: it starts at the root,
      each later scope is the first child of the one before it that contains
      `pos`, and the last one has no child containing `pos`. */
  lemma {:induction false} ChainIsFirstPath(root: Scope, pos: int)
    ensures var c := Chain(root, pos);
      (forall k :: 0 <= k < |c| - 1 ==> FirstChildAt(c[k], c[k + 1], pos))
      && NoChildAt(c[|c| - 1], pos)
    decreases root
  {
    var c := Chain(root, pos);
    var first := FirstContaining(root.children, pos, 0);
    if first.Some? {
      var child := root.children[first.value];
      ChainIsFirstPath(child, pos);
      var rest := Chain(child, pos);
      assert c == [root] + rest;
      assert FirstChildAt(root, child, pos);
      forall k | 1 <= k < |c| - 1
        ensures FirstChildAt(c[k], c[k + 1], pos)
      {
        assert c[k] == rest[k - 1] && c[k + 1] == rest[k];
      }
    }
  }

  // ---------------------------------------------------------------------------
  // The declaration scan (`scanNames`).

  /** The names of the files that `profer` can import, keyed by the path text of
      the import: the root scope of each file's own scan, or the error reading,
      tokenizing or scanning it gave. */
  type Library = map<string, Either<Scope, QError>>

  /** The token a built-in name is declared by. */
  function BuiltinToken(name: string): Token
  {
    Token(Identifier, name, 1, 1, "<builtins>", None)
  }

  function Seeded(names: seq<string>): (m: map<string, Token>)
    ensures forall n :: n in m <==> n in names
    ensures forall n :: n in m ==> m[n] == BuiltinToken(n)
  {
    map n | n in names :: BuiltinToken(n)
  }

  /** The root scope: the built-in constants and operators, with the span of
      the whole program. */
  function RootScope(blocks: Region, constants: seq<string>): Scope
  {
    Scope(Seeded(constants), Seeded(Builtins.UnaryNames), Seeded(Builtins.BinaryNames), [], blocks.start, blocks.end)
  }

  /** The scope a nested region starts with. */
  function OpenScope(r: Region, variables: map<string, Token>): Scope
  {
    Scope(variables, map[], map[], [], r.start, r.end)
  }

  function AddChild(s: Scope, child: Scope): Scope
  {
    s.(children := s.children + [child])
  }

  /** `later` keeps every name of `earlier` and its nested scopes come first. */
  predicate Extends(earlier: Scope, later: Scope)
  {
    earlier.variables.Keys <= later.variables.Keys
    && earlier.unaryOperators.Keys <= later.unaryOperators.Keys
    && earlier.binaryOperators.Keys <= later.binaryOperators.Keys
    && earlier.children <= later.children
    && earlier.start == later.start && earlier.end == later.end
  }

  /** The errors of the scan point at the keyword of the declaration. */
  function DeclError(message: string, keyword: Token): QError
  {
    ErrorAt(SyntaxError, message, keyword.line, keyword.column, keyword.file)
  }

  predicate LeafAt(items: seq<Item>, k: int, kind: TokenType)
  {
    0 <= k < |items| && items[k].Leaf? && items[k].token.kind == kind
  }

  predicate Dotted(name: string) { '.' in name }

  /** `substring(1, length - 1)`, with JavaScript's swapping of reversed bounds. */
  function Unquote(literal: string): string
  {
    if |literal| >= 2 then literal[1..|literal| - 1] else if |literal| == 1 then literal else ""
  }

  function TrimEnd(s: string): (r: string)
    ensures |r| <= |s| && r == s[..|r|]
  {
    if s != [] && IsWhitespace(s[|s| - 1]) then TrimEnd(s[..|s| - 1]) else s
  }

  /** The path of `profer … ab "p".`: the literal without its quotes, trimmed. */
  function ImportPath(literal: string): string
  {
    TrimEnd(TrimStart(Unquote(literal)))
  }

  /** The names of an imported scope that are not built-ins, under `prefix.`. */
  function Prefixed(prefix: string, names: map<string, Token>, builtins: seq<string>): (m: map<string, Token>)
    ensures forall n :: n in names && n !in builtins ==> prefix + "." + n in m && m[prefix + "." + n] == names[n]
    ensures forall q :: q in m ==> exists n :: n in names && n !in builtins && q == prefix + "." + n
  {
    var keys := set n | n in names && n !in builtins :: prefix + "." + n;
    map q | q in keys :: names[q[|prefix| + 1..]]
  }

  /** The scope after `profer prefix ab …`: the imported names are added. */
  function Qualify(scope: Scope, prefix: string, ext: Scope, constants: seq<string>): (r: Scope)
    ensures Extends(scope, r) && r.children == scope.children
  {
    scope.(variables := scope.variables + Prefixed(prefix, ext.variables, constants),
           unaryOperators := scope.unaryOperators + Prefixed(prefix, ext.unaryOperators, Builtins.UnaryNames),
           binaryOperators := scope.binaryOperators + Prefixed(prefix, ext.binaryOperators, Builtins.BinaryNames))
  }

  /** The names of the file an import names; a path with no entry could not be
      read. */
  function Imported(lib: Library, path: string, keyword: Token): Either<Scope, QError>
  {
    if path in lib then lib[path]
    else Err(ErrorAt(ImportError, "could not read file '" + path + "'", keyword.line, keyword.column, keyword.file))
  }

  /** What the scan does with a token of a region outside a comment: go on at
      index `next` with the scope updated; or also scan the function body at
      index `at` with the parameter scope `inner` first; or stop with an error;
      or crash on a JavaScript TypeError. */
  datatype Step =
    | Next(next: nat, scope: Scope)
    | Enter(next: nat, scope: Scope, at: nat, inner: Scope)
    | Stop(error: QError)
    | Crash

  /** An `Enter` step for the declaration at `k`: the body is a nested region
      after `k`, the scan goes on at it or right after it, the enclosing scope
      only gains a name, and the body's scope starts with parameters only. */
  predicate EntersBody(items: seq<Item>, k: nat, scope: Scope, s: Step)
    requires s.Enter?
  {
    k < s.at < |items| && items[s.at].Block? && s.next <= |items|
    && (s.next == s.at || s.next == s.at + 1)
    && Extends(scope, s.scope) && s.scope.children == scope.children
    && s.inner == OpenScope(items[s.at].region, s.inner.variables)
  }

  /** `crea variabile id .`: `id` is declared before the `.` is checked (a
      failed check ends the whole scan, so the order does not show). A dotted
      `id` makes the source build an error that it then drops. */
  function DeclareVariable(items: seq<Item>, k: nat, scope: Scope): (s: Step)
    requires k < |items| && items[k].Leaf?
    ensures s.Next? ==> s.next == k + 4 <= |items| && Extends(scope, s.scope) && s.scope.children == scope.children
    ensures s.Next? || s.Stop?
  {
    var keyword := items[k].token;
    if !LeafAt(items, k + 1, Variable) then Stop(DeclError("Expected 'variabilis' after '" + keyword.value + "'", keyword))
    else if !LeafAt(items, k + 2, Identifier) then Stop(DeclError("Expected an identifier after 'variabilis'", keyword))
    else
      var id := items[k + 2].token;
      if !LeafAt(items, k + 3, EndOfSentence) then Stop(DeclError("Expected '.'", keyword))
      else Next(k + 4, scope.(variables := scope.variables[id.value := id]))
  }

  /** `define f cum a <body>` and `define f cum a et b <body>`. The binary form
      does not step past the body, so after the body has been scanned with the
      parameter scope the region's scan meets it again as a plain block. */
  function DefineOperator(items: seq<Item>, k: nat, scope: Scope): (s: Step)
    requires k < |items| && items[k].Leaf?
    ensures s.Enter? ==> EntersBody(items, k, scope, s)
    ensures !s.Next?
  {
    var keyword := items[k].token;
    if !LeafAt(items, k + 1, Identifier) then Stop(DeclError("Expected an identifier after 'define'", keyword))
    else
      var name := items[k + 1].token;
      if Dotted(name.value) then Stop(DeclError("Expected a non-qualified identifier after 'define'", keyword))
      else if !LeafAt(items, k + 2, With) then Stop(DeclError("Expected 'cum' after identifier", keyword))
      else if !LeafAt(items, k + 3, Identifier) then Stop(DeclError("Expected identifier after 'cum'", keyword))
      else
        var arg1 := items[k + 3].token;
        if Dotted(arg1.value) then Stop(DeclError("Expected a non-qualified identifier after 'cum'", keyword))
        else if k + 4 == |items| then Crash
        else if items[k + 4].Block? then
          Enter(k + 5, scope.(unaryOperators := scope.unaryOperators[name.value := name]), k + 4,
            OpenScope(items[k + 4].region, map[arg1.value := arg1]))
        else if items[k + 4].token.kind != And then Stop(DeclError("Expected 'face' or 'et'", keyword))
        else if !LeafAt(items, k + 5, Identifier) then Stop(DeclError("Expected identifier after 'et'", keyword))
        else
          var arg2 := items[k + 5].token;
          if Dotted(arg2.value) then Stop(DeclError("Expected a non-qualified identifier after 'et'", keyword))
          else if !(k + 6 < |items| && items[k + 6].Block?) then Stop(DeclError("Expected 'tum' after identifier", keyword))
          else
            Enter(k + 6, scope.(binaryOperators := scope.binaryOperators[name.value := name]), k + 6,
              OpenScope(items[k + 6].region, map[arg1.value := arg1][arg2.value := arg2]))
  }

  /** `profer alias ab "p" .`: `alias` is declared first, then the names of the
      imported file are copied under `alias.`. */
  function ImportNames(constants: seq<string>, lib: Library, items: seq<Item>, k: nat, scope: Scope): (s: Step)
    requires k < |items| && items[k].Leaf?
    ensures s.Next? ==> s.next == k + 5 <= |items| && Extends(scope, s.scope) && s.scope.children == scope.children
    ensures s.Next? || s.Stop?
  {
    var keyword := items[k].token;
    if !LeafAt(items, k + 1, Identifier) then Stop(DeclError("Expected an identifier after 'profer'", keyword))
    else
      var alias := items[k + 1].token;
      var named := scope.(variables := scope.variables[alias.value := alias]);
      if !LeafAt(items, k + 2, From) then Stop(DeclError("Expected 'ab'", keyword))
      else if !LeafAt(items, k + 3, StringLiteral) then Stop(DeclError("Expected a string literal after 'ab'", keyword))
      else if !LeafAt(items, k + 4, EndOfSentence) then Stop(DeclError("Expected '.'", keyword))
      else match Imported(lib, ImportPath(items[k + 3].token.value), keyword)
        case Err(e) => Stop(e)
        case Ok(ext) => Next(k + 5, Qualify(named, alias.value, ext, constants))
  }

  /** The step for the token at `k`: declarations are read, any other token is
      passed over. */
  function Declaration(constants: seq<string>, lib: Library, items: seq<Item>, k: nat, scope: Scope): (s: Step)
    requires k < |items| && items[k].Leaf?
    ensures s.Next? ==> k < s.next <= |items| && Extends(scope, s.scope) && s.scope.children == scope.children
    ensures s.Enter? ==> EntersBody(items, k, scope, s)
  {
    match items[k].token.kind
    case Create => DeclareVariable(items, k, scope)
    case Define => DefineOperator(items, k, scope)
    case Import => ImportNames(constants, lib, items, k, scope)
    case _ => Next(k + 1, scope)
  }

  /** The scan of the items of region `r` from index `k`, in scope `scope`,
      with the comment flag `inComment` (which carries over region
      boundaries): the finished scope and the flag, an error, or a crash. A
      nested region is scanned with a scope of its own, which is added to
      `scope` when done. */
  function ScanItems(constants: seq<string>, lib: Library, r: Region, k: nat, scope: Scope, inComment: bool)
    : Attempt<(Scope, bool)>
    requires k <= |r.children|
    decreases r, |r.children| - k, 1
  {
    var items := r.children;
    if k == |items| then Success((scope, inComment))
    else if inComment then
      ScanItems(constants, lib, r, k + 1, scope, !(items[k].Leaf? && items[k].token.kind == EndOfSentence))
    else if items[k].Block? then
      var body := items[k].region;
      AfterBlock(constants, lib, r, k + 1, scope, ScanItems(constants, lib, body, 0, OpenScope(body, map[]), false))
    else if items[k].token.kind == Note then ScanItems(constants, lib, r, k + 1, scope, true)
    else match Declaration(constants, lib, items, k, scope)
      case Next(next, s) => ScanItems(constants, lib, r, next, s, false)
      case Enter(next, s, at, inner) =>
        AfterBlock(constants, lib, r, next, s, ScanItems(constants, lib, items[at].region, 0, inner, false))
      case Stop(e) => Failure(e)
      case Crash => Thrown
  }

  /** Going on at `next` once a nested region's scan has given `inner`. */
  function AfterBlock(constants: seq<string>, lib: Library, r: Region, next: nat, scope: Scope,
                      inner: Attempt<(Scope, bool)>): Attempt<(Scope, bool)>
    requires next <= |r.children|
    decreases r, |r.children| - next, 2
  {
    match inner
    case Success((child, c)) => ScanItems(constants, lib, r, next, AddChild(scope, child), c)
    case Failure(e) => Failure(e)
    case Thrown => Thrown
  }

  /** What `scanNames` answers for a token list: the root scope with every
      declaration recorded. A program without items is the bare root. */
  function NamesOf(tokens: seq<Token>, constants: seq<string>, lib: Library): Attempt<Scope>
  {
    var blocks := CodeBlocks(tokens, 0);
    var root := RootScope(blocks, constants);
    if blocks.children == [] then Success(root)
    else match ScanItems(constants, lib, blocks, 0, root, false)
      case Success((s, _)) => Success(s)
      case Failure(e) => Failure(e)
      case Thrown => Thrown
  }

  // ---------------------------------------------------------------------------
  // The explicit-stack form of the scan. `scanNames` keeps three stacks, top
  // first: the regions being scanned, the index reached in each, and the scope
  // each one fills.

  predicate Fits(blocks: seq<Region>, indices: seq<nat>)
  {
    |blocks| == |indices| && forall i :: 0 <= i < |blocks| ==> indices[i] <= |blocks[i].children|
  }

  predicate Stacks(blocks: seq<Region>, indices: seq<nat>, scopes: seq<Scope>)
  {
    Fits(blocks, indices) && |scopes| == |blocks|
  }

  /** What the scan from a state of the stacks comes to: the top region's scan
      goes on from its index, and each finished scope joins the one below. */
  function Resume(constants: seq<string>, lib: Library, blocks: seq<Region>, indices: seq<nat>, scopes: seq<Scope>,
                  inComment: bool): Attempt<(Scope, bool)>
    requires Stacks(blocks, indices, scopes) && |blocks| >= 1
    decreases |blocks|, 1
  {
    Unwind(constants, lib, blocks[1..], indices[1..], scopes[1..],
      ScanItems(constants, lib, blocks[0], indices[0], scopes[0], inComment))
  }

  function Unwind(constants: seq<string>, lib: Library, blocks: seq<Region>, indices: seq<nat>, scopes: seq<Scope>,
                  r: Attempt<(Scope, bool)>): Attempt<(Scope, bool)>
    requires Stacks(blocks, indices, scopes)
    decreases |blocks|, 2
  {
    match r
    case Success((s, c)) =>
      if blocks == [] then r else Resume(constants, lib, blocks, indices, [AddChild(scopes[0], s)] + scopes[1..], c)
    case _ => r
  }

  /** Popping a finished region adds its scope to the one below. */
  lemma ResumePop(constants: seq<string>, lib: Library, blocks: seq<Region>, indices: seq<nat>, scopes: seq<Scope>, c: bool)
    requires Stacks(blocks, indices, scopes) && |blocks| >= 2 && indices[0] == |blocks[0].children|
    ensures Stacks(blocks[1..], indices[1..], [AddChild(scopes[1], scopes[0])] + scopes[2..])
    ensures Resume(constants, lib, blocks, indices, scopes, c)
      == Resume(constants, lib, blocks[1..], indices[1..], [AddChild(scopes[1], scopes[0])] + scopes[2..], c)
  {
    assert scopes[1..][1..] == scopes[2..];
  }

  /** The last region, once done, is the outcome. */
  lemma ResumeLast(constants: seq<string>, lib: Library, blocks: seq<Region>, indices: seq<nat>, scopes: seq<Scope>, c: bool)
    requires Stacks(blocks, indices, scopes) && |blocks| == 1 && indices[0] == |blocks[0].children|
    ensures Resume(constants, lib, blocks, indices, scopes, c) == Success((scopes[0], c))
  {
    var x := ScanItems(constants, lib, blocks[0], indices[0], scopes[0], c);
    assert x == Success((scopes[0], c));
    assert blocks[1..] == [] && indices[1..] == [] && scopes[1..] == [];
    assert Resume(constants, lib, blocks, indices, scopes, c) == Unwind(constants, lib, [], [], [], x);
  }

  /** A step inside the top region that the scan takes to index `k` with scope
      `s` and flag `c'` leaves the outcome as it was. */
  lemma ResumeAdvance(constants: seq<string>, lib: Library, blocks: seq<Region>, indices: seq<nat>, scopes: seq<Scope>,
                      c: bool, k: nat, s: Scope, c': bool)
    requires Stacks(blocks, indices, scopes) && |blocks| >= 1 && k <= |blocks[0].children|
    requires ScanItems(constants, lib, blocks[0], indices[0], scopes[0], c) == ScanItems(constants, lib, blocks[0], k, s, c')
    ensures Stacks(blocks, indices[0 := k], scopes[0 := s])
    ensures Resume(constants, lib, blocks, indices, scopes, c) == Resume(constants, lib, blocks, indices[0 := k], scopes[0 := s], c')
  {
    assert indices[0 := k][1..] == indices[1..];
    assert scopes[0 := s][1..] == scopes[1..];
  }

  /** Unwinding a nested region's outcome onto the stacks, whose top region
      goes on at `next` with scope `s`, is the top region's scan after it. */
  lemma UnwindAfter(constants: seq<string>, lib: Library, blocks: seq<Region>, indices: seq<nat>, scopes: seq<Scope>,
                    next: nat, s: Scope, x: Attempt<(Scope, bool)>)
    requires Stacks(blocks, indices, scopes) && |blocks| >= 1 && next <= |blocks[0].children|
    ensures Stacks(blocks, indices[0 := next], scopes[0 := s])
    ensures Unwind(constants, lib, blocks, indices[0 := next], scopes[0 := s], x)
      == Unwind(constants, lib, blocks[1..], indices[1..], scopes[1..], AfterBlock(constants, lib, blocks[0], next, s, x))
  {
    assert indices[0 := next][1..] == indices[1..];
    match x
    case Success((child, c)) =>
      var scopes' := [AddChild(s, child)] + scopes[1..];
      assert scopes'[1..] == scopes[1..];
      assert Unwind(constants, lib, blocks, indices[0 := next], scopes[0 := s], x)
        == Resume(constants, lib, blocks, indices[0 := next], scopes', c);
    case Failure(e) =>
    case Thrown =>
  }

  /** Entering a nested region `body` with scope `inner`, while the top region
      goes on at `next` with scope `s` once the body's scope is added. */
  lemma ResumePush(constants: seq<string>, lib: Library, blocks: seq<Region>, indices: seq<nat>, scopes: seq<Scope>,
                   c: bool, next: nat, s: Scope, body: Region, inner: Scope, c': bool)
    requires Stacks(blocks, indices, scopes) && |blocks| >= 1 && next <= |blocks[0].children|
    requires ScanItems(constants, lib, blocks[0], indices[0], scopes[0], c)
      == AfterBlock(constants, lib, blocks[0], next, s, ScanItems(constants, lib, body, 0, inner, c'))
    ensures Stacks([body] + blocks, [0] + indices[0 := next], [inner] + scopes[0 := s])
    ensures Resume(constants, lib, blocks, indices, scopes, c)
      == Resume(constants, lib, [body] + blocks, [0] + indices[0 := next], [inner] + scopes[0 := s], c')
  {
    var blocks', indices', scopes' := [body] + blocks, [0] + indices[0 := next], [inner] + scopes[0 := s];
    assert blocks'[1..] == blocks && indices'[1..] == indices[0 := next] && scopes'[1..] == scopes[0 := s];
    var x := ScanItems(constants, lib, body, 0, inner, c');
    assert Resume(constants, lib, blocks', indices', scopes', c')
      == Unwind(constants, lib, blocks, indices[0 := next], scopes[0 := s], x);
    UnwindAfter(constants, lib, blocks, indices, scopes, next, s, x);
  }

  // Termination of the stack machine. A binary `define` leaves its body to be
  // met again, so the frame below such a body carries a flag that discounts
  // the body it will rescan.

  ghost function Load(items: seq<Item>): nat
    decreases items, 1
  {
    if items == [] then 0 else ItemLoad(items[0]) + Load(items[1..])
  }

  ghost function ItemLoad(it: Item): nat
    decreases it, 0
  {
    match it
    case Leaf(_) => 1
    case Block(r) => 2 * Load(r.children) + 4
  }

  ghost predicate Flags(blocks: seq<Region>, indices: seq<nat>, rescans: seq<bool>)
    requires Fits(blocks, indices)
  {
    |rescans| == |blocks|
    && forall i :: 0 <= i < |blocks| && rescans[i] ==>
      indices[i] < |blocks[i].children| && blocks[i].children[indices[i]].Block?
  }

  ghost function FrameLoad(r: Region, k: nat, rescan: bool): int
    requires k <= |r.children|
  {
    Load(r.children[k..]) + 1
      - (if rescan && k < |r.children| && r.children[k].Block? then Load(r.children[k].region.children) + 2 else 0)
  }

  ghost function Weight(blocks: seq<Region>, indices: seq<nat>, rescans: seq<bool>): int
    requires Fits(blocks, indices) && |rescans| == |blocks|
    decreases |blocks|
  {
    if blocks == [] then 0
    else FrameLoad(blocks[0], indices[0], rescans[0]) + Weight(blocks[1..], indices[1..], rescans[1..])
  }

  lemma LoadSplit(items: seq<Item>, k: nat)
    requires k < |items|
    ensures Load(items[k..]) == ItemLoad(items[k]) + Load(items[k + 1..])
  {
    assert items[k..][0] == items[k];
    assert items[k..][1..] == items[k + 1..];
  }

  lemma {:induction false} LoadDrop(items: seq<Item>, i: nat, j: nat)
    requires i <= j <= |items|
    ensures Load(items[i..]) >= Load(items[j..]) + (j - i)
    decreases j - i
  {
    if i < j {
      LoadSplit(items, i);
      LoadDrop(items, i + 1, j);
    }
  }

  lemma {:induction false} WeightAtLeast(blocks: seq<Region>, indices: seq<nat>, rescans: seq<bool>)
    requires Fits(blocks, indices) && Flags(blocks, indices, rescans)
    ensures Weight(blocks, indices, rescans) >= |blocks|
    decreases |blocks|
  {
    if blocks != [] {
      var items, k := blocks[0].children, indices[0];
      if rescans[0] {
        LoadSplit(items, k);
      }
      assert Fits(blocks[1..], indices[1..]);
      WeightAtLeast(blocks[1..], indices[1..], rescans[1..]);
    }
  }

  lemma WeightTop(blocks: seq<Region>, indices: seq<nat>, rescans: seq<bool>, k: nat, f: bool)
    requires Fits(blocks, indices) && |rescans| == |blocks| && |blocks| >= 1 && k <= |blocks[0].children|
    ensures Fits(blocks, indices[0 := k])
    ensures Weight(blocks, indices[0 := k], rescans[0 := f])
      == Weight(blocks, indices, rescans) - FrameLoad(blocks[0], indices[0], rescans[0]) + FrameLoad(blocks[0], k, f)
  {
    assert indices[0 := k][1..] == indices[1..];
    assert rescans[0 := f][1..] == rescans[1..];
  }

  lemma WeightPushed(b: Region, blocks: seq<Region>, indices: seq<nat>, rescans: seq<bool>)
    requires Fits(blocks, indices) && |rescans| == |blocks|
    ensures Fits([b] + blocks, [0] + indices)
    ensures Weight([b] + blocks, [0] + indices, [false] + rescans) == FrameLoad(b, 0, false) + Weight(blocks, indices, rescans)
  {
    assert ([b] + blocks)[1..] == blocks;
    assert ([0] + indices)[1..] == indices;
    assert ([false] + rescans)[1..] == rescans;
  }

  /** Passing over one item lowers the frame's load. */
  lemma FrameSkip(r: Region, k: nat, f: bool)
    requires k < |r.children|
    ensures FrameLoad(r, k, f) > FrameLoad(r, k + 1, false)
  {
    LoadSplit(r.children, k);
  }

  /** Entering a nested region at `k` lowers the load by more than the new frame's. */
  lemma FramePush(r: Region, k: nat, f: bool)
    requires k < |r.children| && r.children[k].Block?
    ensures FrameLoad(r, k, f) > FrameLoad(r, k + 1, false) + FrameLoad(r.children[k].region, 0, false)
  {
    LoadSplit(r.children, k);
  }

  /** A declaration read from a token to `next`. */
  lemma FrameMove(r: Region, k: nat, f: bool, next: nat)
    requires k < next <= |r.children| && r.children[k].Leaf?
    ensures FrameLoad(r, k, f) > FrameLoad(r, next, false)
  {
    LoadDrop(r.children, k, next);
  }

  /** A definition read from `k` to its body at `at`, going on at `next`. */
  lemma FrameEnter(r: Region, k: nat, f: bool, next: nat, at: nat)
    requires k < at < |r.children| && r.children[k].Leaf? && r.children[at].Block?
    requires next == at || next == at + 1
    ensures FrameLoad(r, k, f) > FrameLoad(r, next, next == at) + FrameLoad(r.children[at].region, 0, false)
  {
    LoadDrop(r.children, k, at);
    LoadSplit(r.children, at);
  }

  // One lemma per kind of step of the machine: each keeps the machine's
  // invariant and lowers its weight.

  ghost predicate Machine(constants: seq<string>, lib: Library, goal: Attempt<(Scope, bool)>,
                          blocks: seq<Region>, indices: seq<nat>, scopes: seq<Scope>, rescans: seq<bool>, inComment: bool)
  {
    Stacks(blocks, indices, scopes) && Flags(blocks, indices, rescans) && Weight(blocks, indices, rescans) >= 0
    && (blocks != [] ==> Resume(constants, lib, blocks, indices, scopes, inComment) == goal)
  }

  lemma FlagsTop(blocks: seq<Region>, indices: seq<nat>, rescans: seq<bool>, k: nat, f: bool)
    requires Fits(blocks, indices) && Flags(blocks, indices, rescans) && |blocks| >= 1 && k <= |blocks[0].children|
    requires f ==> k < |blocks[0].children| && blocks[0].children[k].Block?
    ensures Fits(blocks, indices[0 := k]) && Flags(blocks, indices[0 := k], rescans[0 := f])
  {
  }

  lemma FlagsPushed(b: Region, blocks: seq<Region>, indices: seq<nat>, rescans: seq<bool>)
    requires Fits(blocks, indices) && Flags(blocks, indices, rescans)
    ensures Fits([b] + blocks, [0] + indices) && Flags([b] + blocks, [0] + indices, [false] + rescans)
  {
    var blocks', indices', rescans' := [b] + blocks, [0] + indices, [false] + rescans;
    forall i | 1 <= i < |blocks'|
      ensures blocks'[i] == blocks[i - 1] && indices'[i] == indices[i - 1] && rescans'[i] == rescans[i - 1]
    {
    }
  }

  lemma FlagsPopped(blocks: seq<Region>, indices: seq<nat>, rescans: seq<bool>)
    requires Fits(blocks, indices) && Flags(blocks, indices, rescans) && |blocks| >= 1
    ensures Fits(blocks[1..], indices[1..]) && Flags(blocks[1..], indices[1..], rescans[1..])
  {
    forall i | 0 <= i < |blocks| - 1
      ensures blocks[1..][i] == blocks[i + 1] && indices[1..][i] == indices[i + 1] && rescans[1..][i] == rescans[i + 1]
    {
    }
  }

  lemma PopStep(constants: seq<string>, lib: Library, goal: Attempt<(Scope, bool)>,
                blocks: seq<Region>, indices: seq<nat>, scopes: seq<Scope>, rescans: seq<bool>, c: bool)
    requires Machine(constants, lib, goal, blocks, indices, scopes, rescans, c)
    requires blocks != [] && indices[0] >= |blocks[0].children|
    ensures Fits(blocks[1..], indices[1..]) && |rescans| == |blocks|
    ensures Weight(blocks[1..], indices[1..], rescans[1..]) < Weight(blocks, indices, rescans)
    ensures |blocks| == 1 ==> goal == Success((scopes[0], c))
    ensures |blocks| >= 2 ==>
      Machine(constants, lib, goal, blocks[1..], indices[1..], [AddChild(scopes[1], scopes[0])] + scopes[2..], rescans[1..], c)
  {
    FlagsPopped(blocks, indices, rescans);
    assert blocks[0].children[indices[0]..] == [];
    assert FrameLoad(blocks[0], indices[0], rescans[0]) == 1;
    WeightAtLeast(blocks[1..], indices[1..], rescans[1..]);
    if |blocks| >= 2 {
      ResumePop(constants, lib, blocks, indices, scopes, c);
    } else {
      ResumeLast(constants, lib, blocks, indices, scopes, c);
    }
  }

  lemma AdvanceWeight(blocks: seq<Region>, indices: seq<nat>, rescans: seq<bool>, k: nat)
    requires Fits(blocks, indices) && |rescans| == |blocks| && blocks != []
    requires indices[0] < k <= |blocks[0].children|
    requires k == indices[0] + 1 || blocks[0].children[indices[0]].Leaf?
    ensures Fits(blocks, indices[0 := k])
    ensures Weight(blocks, indices[0 := k], rescans[0 := false]) < Weight(blocks, indices, rescans)
  {
    if k == indices[0] + 1 {
      FrameSkip(blocks[0], indices[0], rescans[0]);
    } else {
      FrameMove(blocks[0], indices[0], rescans[0], k);
    }
    WeightTop(blocks, indices, rescans, k, false);
  }

  lemma EnterWeight(blocks: seq<Region>, indices: seq<nat>, rescans: seq<bool>, next: nat, f: bool, body: Region)
    requires Fits(blocks, indices) && |rescans| == |blocks| && blocks != []
    requires next <= |blocks[0].children| && indices[0] < |blocks[0].children|
    requires FrameLoad(blocks[0], indices[0], rescans[0]) > FrameLoad(blocks[0], next, f) + FrameLoad(body, 0, false)
    ensures Fits([body] + blocks, [0] + indices[0 := next])
    ensures Weight([body] + blocks, [0] + indices[0 := next], [false] + rescans[0 := f]) < Weight(blocks, indices, rescans)
  {
    WeightTop(blocks, indices, rescans, next, f);
    WeightPushed(body, blocks, indices[0 := next], rescans[0 := f]);
  }

  /** A step that stays in the top region and passes to index `k`. */
  lemma AdvanceStep(constants: seq<string>, lib: Library, goal: Attempt<(Scope, bool)>,
                    blocks: seq<Region>, indices: seq<nat>, scopes: seq<Scope>, rescans: seq<bool>, c: bool,
                    k: nat, s: Scope, c': bool)
    requires Machine(constants, lib, goal, blocks, indices, scopes, rescans, c) && blocks != []
    requires indices[0] < k <= |blocks[0].children|
    requires k == indices[0] + 1 || blocks[0].children[indices[0]].Leaf?
    requires ScanItems(constants, lib, blocks[0], indices[0], scopes[0], c) == ScanItems(constants, lib, blocks[0], k, s, c')
    ensures Fits(blocks, indices[0 := k]) && |rescans| == |blocks|
    ensures Weight(blocks, indices[0 := k], rescans[0 := false]) < Weight(blocks, indices, rescans)
    ensures Machine(constants, lib, goal, blocks, indices[0 := k], scopes[0 := s], rescans[0 := false], c')
  {
    AdvanceWeight(blocks, indices, rescans, k);
    FlagsTop(blocks, indices, rescans, k, false);
    WeightAtLeast(blocks, indices[0 := k], rescans[0 := false]);
    ResumeAdvance(constants, lib, blocks, indices, scopes, c, k, s, c');
  }

  /** A step that enters a nested region `body`, after which the top region
      goes on at `next` with scope `s` and flag `f`. */
  lemma EnterStep(constants: seq<string>, lib: Library, goal: Attempt<(Scope, bool)>,
                  blocks: seq<Region>, indices: seq<nat>, scopes: seq<Scope>, rescans: seq<bool>, c: bool,
                  next: nat, s: Scope, f: bool, body: Region, inner: Scope)
    requires Machine(constants, lib, goal, blocks, indices, scopes, rescans, c) && blocks != []
    requires next <= |blocks[0].children| && indices[0] < |blocks[0].children|
    requires f ==> next < |blocks[0].children| && blocks[0].children[next].Block?
    requires FrameLoad(blocks[0], indices[0], rescans[0]) > FrameLoad(blocks[0], next, f) + FrameLoad(body, 0, false)
    requires ScanItems(constants, lib, blocks[0], indices[0], scopes[0], c)
      == AfterBlock(constants, lib, blocks[0], next, s, ScanItems(constants, lib, body, 0, inner, false))
    ensures Fits([body] + blocks, [0] + indices[0 := next]) && |rescans| == |blocks|
    ensures Weight([body] + blocks, [0] + indices[0 := next], [false] + rescans[0 := f]) < Weight(blocks, indices, rescans)
    ensures Machine(constants, lib, goal, [body] + blocks, [0] + indices[0 := next], [inner] + scopes[0 := s],
      [false] + rescans[0 := f], false)
  {
    EnterWeight(blocks, indices, rescans, next, f, body);
    FlagsTop(blocks, indices, rescans, next, f);
    FlagsPushed(body, blocks, indices[0 := next], rescans[0 := f]);
    WeightAtLeast([body] + blocks, [0] + indices[0 := next], [false] + rescans[0 := f]);
    ResumePush(constants, lib, blocks, indices, scopes, c, next, s, body, inner, false);
  }

  ghost predicate At(blocks: seq<Region>, indices: seq<nat>)
  {
    blocks != [] && |indices| == |blocks| && indices[0] < |blocks[0].children|
  }

  /** Inside a comment, an item is passed over; a `.` ends the comment. */
  lemma CommentStep(constants: seq<string>, lib: Library, goal: Attempt<(Scope, bool)>,
                    blocks: seq<Region>, indices: seq<nat>, scopes: seq<Scope>, rescans: seq<bool>)
    requires Machine(constants, lib, goal, blocks, indices, scopes, rescans, true) && At(blocks, indices)
    ensures var it := blocks[0].children[indices[0]];
      var c' := !(it.Leaf? && it.token.kind == EndOfSentence);
      Fits(blocks, indices[0 := indices[0] + 1]) && |rescans| == |blocks|
      && Weight(blocks, indices[0 := indices[0] + 1], rescans[0 := false]) < Weight(blocks, indices, rescans)
      && Machine(constants, lib, goal, blocks, indices[0 := indices[0] + 1], scopes, rescans[0 := false], c')
  {
    var it := blocks[0].children[indices[0]];
    var c' := !(it.Leaf? && it.token.kind == EndOfSentence);
    assert ScanItems(constants, lib, blocks[0], indices[0], scopes[0], true)
      == ScanItems(constants, lib, blocks[0], indices[0] + 1, scopes[0], c');
    assert scopes[0 := scopes[0]] == scopes;
    AdvanceStep(constants, lib, goal, blocks, indices, scopes, rescans, true, indices[0] + 1, scopes[0], c');
  }

  /** `nota` starts a comment. */
  lemma NoteStep(constants: seq<string>, lib: Library, goal: Attempt<(Scope, bool)>,
                 blocks: seq<Region>, indices: seq<nat>, scopes: seq<Scope>, rescans: seq<bool>)
    requires Machine(constants, lib, goal, blocks, indices, scopes, rescans, false) && At(blocks, indices)
    requires LeafAt(blocks[0].children, indices[0], Note)
    ensures Fits(blocks, indices[0 := indices[0] + 1]) && |rescans| == |blocks|
    ensures Weight(blocks, indices[0 := indices[0] + 1], rescans[0 := false]) < Weight(blocks, indices, rescans)
    ensures Machine(constants, lib, goal, blocks, indices[0 := indices[0] + 1], scopes, rescans[0 := false], true)
  {
    assert ScanItems(constants, lib, blocks[0], indices[0], scopes[0], false)
      == ScanItems(constants, lib, blocks[0], indices[0] + 1, scopes[0], true);
    assert scopes[0 := scopes[0]] == scopes;
    AdvanceStep(constants, lib, goal, blocks, indices, scopes, rescans, false, indices[0] + 1, scopes[0], true);
  }

  /** A nested region is scanned in a fresh scope of its own. */
  lemma BlockStep(constants: seq<string>, lib: Library, goal: Attempt<(Scope, bool)>,
                  blocks: seq<Region>, indices: seq<nat>, scopes: seq<Scope>, rescans: seq<bool>)
    requires Machine(constants, lib, goal, blocks, indices, scopes, rescans, false) && At(blocks, indices)
    requires blocks[0].children[indices[0]].Block?
    ensures var body := blocks[0].children[indices[0]].region;
      Fits([body] + blocks, [0] + indices[0 := indices[0] + 1]) && |rescans| == |blocks|
      && Weight([body] + blocks, [0] + indices[0 := indices[0] + 1], [false] + rescans[0 := false]) < Weight(blocks, indices, rescans)
      && Machine(constants, lib, goal, [body] + blocks, [0] + indices[0 := indices[0] + 1], [OpenScope(body, map[])] + scopes,
        [false] + rescans[0 := false], false)
  {
    var body := blocks[0].children[indices[0]].region;
    FramePush(blocks[0], indices[0], rescans[0]);
    assert scopes[0 := scopes[0]] == scopes;
    EnterStep(constants, lib, goal, blocks, indices, scopes, rescans, false,
      indices[0] + 1, scopes[0], false, body, OpenScope(body, map[]));
  }

  /** A token that `Declaration` reads as far as `next`. */
  lemma NextStep(constants: seq<string>, lib: Library, goal: Attempt<(Scope, bool)>,
                 blocks: seq<Region>, indices: seq<nat>, scopes: seq<Scope>, rescans: seq<bool>, next: nat, s: Scope)
    requires Machine(constants, lib, goal, blocks, indices, scopes, rescans, false) && At(blocks, indices)
    requires blocks[0].children[indices[0]].Leaf? && blocks[0].children[indices[0]].token.kind != Note
    requires Declaration(constants, lib, blocks[0].children, indices[0], scopes[0]) == Next(next, s)
    ensures Fits(blocks, indices[0 := next]) && |rescans| == |blocks|
    ensures Weight(blocks, indices[0 := next], rescans[0 := false]) < Weight(blocks, indices, rescans)
    ensures Machine(constants, lib, goal, blocks, indices[0 := next], scopes[0 := s], rescans[0 := false], false)
  {
    assert ScanItems(constants, lib, blocks[0], indices[0], scopes[0], false)
      == ScanItems(constants, lib, blocks[0], next, s, false);
    AdvanceStep(constants, lib, goal, blocks, indices, scopes, rescans, false, next, s, false);
  }

  /** A `define` whose body is scanned next with the parameter scope `inner`. */
  lemma DefineStep(constants: seq<string>, lib: Library, goal: Attempt<(Scope, bool)>,
                   blocks: seq<Region>, indices: seq<nat>, scopes: seq<Scope>, rescans: seq<bool>,
                   next: nat, s: Scope, at: nat, inner: Scope)
    requires Machine(constants, lib, goal, blocks, indices, scopes, rescans, false) && At(blocks, indices)
    requires blocks[0].children[indices[0]].Leaf? && blocks[0].children[indices[0]].token.kind != Note
    requires Declaration(constants, lib, blocks[0].children, indices[0], scopes[0]) == Enter(next, s, at, inner)
    ensures at < |blocks[0].children| && blocks[0].children[at].Block?
    ensures var body := blocks[0].children[at].region;
      Fits([body] + blocks, [0] + indices[0 := next]) && |rescans| == |blocks|
      && Weight([body] + blocks, [0] + indices[0 := next], [false] + rescans[0 := next == at]) < Weight(blocks, indices, rescans)
      && Machine(constants, lib, goal, [body] + blocks, [0] + indices[0 := next], [inner] + scopes[0 := s],
        [false] + rescans[0 := next == at], false)
  {
    var body := blocks[0].children[at].region;
    FrameEnter(blocks[0], indices[0], rescans[0], next, at);
    assert ScanItems(constants, lib, blocks[0], indices[0], scopes[0], false)
      == AfterBlock(constants, lib, blocks[0], next, s, ScanItems(constants, lib, body, 0, inner, false));
    EnterStep(constants, lib, goal, blocks, indices, scopes, rescans, false, next, s, next == at, body, inner);
  }

  /** A declaration error or crash ends the whole scan with it. */
  lemma HaltStep(constants: seq<string>, lib: Library, goal: Attempt<(Scope, bool)>,
                 blocks: seq<Region>, indices: seq<nat>, scopes: seq<Scope>, rescans: seq<bool>)
    requires Machine(constants, lib, goal, blocks, indices, scopes, rescans, false) && At(blocks, indices)
    requires blocks[0].children[indices[0]].Leaf? && blocks[0].children[indices[0]].token.kind != Note
    ensures var step := Declaration(constants, lib, blocks[0].children, indices[0], scopes[0]);
      (step.Stop? ==> goal == Failure(step.error)) && (step.Crash? ==> goal == Thrown)
  {
    var step := Declaration(constants, lib, blocks[0].children, indices[0], scopes[0]);
    var x := ScanItems(constants, lib, blocks[0], indices[0], scopes[0], false);
    if step.Stop? {
      assert x == Failure(step.error);
      UnwindHalts(constants, lib, blocks[1..], indices[1..], scopes[1..], x);
    } else if step.Crash? {
      assert x == Thrown;
      UnwindHalts(constants, lib, blocks[1..], indices[1..], scopes[1..], x);
    }
  }

  lemma UnwindHalts(constants: seq<string>, lib: Library, blocks: seq<Region>, indices: seq<nat>, scopes: seq<Scope>,
                    x: Attempt<(Scope, bool)>)
    requires Stacks(blocks, indices, scopes) && !x.Success?
    ensures Unwind(constants, lib, blocks, indices, scopes, x) == x
  {
  }

  /** The machine's first state: the root region at its start. */
  lemma MachineStarts(constants: seq<string>, lib: Library, blocks: Region, root: Scope)
    ensures Machine(constants, lib, ScanItems(constants, lib, blocks, 0, root, false), [blocks], [0], [root], [false], false)
  {
    var goal := ScanItems(constants, lib, blocks, 0, root, false);
    assert [blocks][1..] == [] && [0][1..] == [] && [root][1..] == [];
    assert Resume(constants, lib, [blocks], [0], [root], false) == Unwind(constants, lib, [], [], [], goal);
    WeightAtLeast([blocks], [0], [false]);
  }

  /** `scanNames`: the declared names of every region, found with three
      explicit stacks rather than recursion. The ghost `rescans` marks the
      frames whose next item is a body that a binary `define` has already
      scanned with its parameters. */
  method ScanNames(tokens: seq<Token>, constants: seq<string>, lib: Library) returns (r: Attempt<Scope>)
    ensures r == NamesOf(tokens, constants, lib)
  {
    var blocks := ScanCodeBlock(tokens, 0);
    var root := RootScope(blocks, constants);
    if |blocks.children| == 0 {
      return Success(root);
    }
    ghost var goal := ScanItems(constants, lib, blocks, 0, root, false);
    var currentBlock: seq<Region>, currentIndexInBlock: seq<nat>, currentCodeBlock: seq<Scope> := [blocks], [0], [root];
    var inComment := false;
    ghost var rescans := [false];
    MachineStarts(constants, lib, blocks, root);
    while currentIndexInBlock != []
      invariant Machine(constants, lib, goal, currentBlock, currentIndexInBlock, currentCodeBlock, rescans, inComment)
      invariant currentBlock == [] ==> goal == Success((root, inComment))
      decreases Weight(currentBlock, currentIndexInBlock, rescans)
    {
      var block, index := currentBlock[0], currentIndexInBlock[0];
      if index >= |block.children| {
        PopStep(constants, lib, goal, currentBlock, currentIndexInBlock, currentCodeBlock, rescans, inComment);
        var it := currentCodeBlock[0];
        currentIndexInBlock, currentBlock, currentCodeBlock := currentIndexInBlock[1..], currentBlock[1..], currentCodeBlock[1..];
        rescans := rescans[1..];
        if currentCodeBlock != [] {
          currentCodeBlock := [AddChild(currentCodeBlock[0], it)] + currentCodeBlock[1..];
        } else {
          root := it;
        }
        continue;
      }
      var current := block.children[index];
      if inComment {
        CommentStep(constants, lib, goal, currentBlock, currentIndexInBlock, currentCodeBlock, rescans);
        currentIndexInBlock := currentIndexInBlock[0 := index + 1];
        rescans := rescans[0 := false];
        if current.Leaf? && current.token.kind == EndOfSentence {
          inComment := false;
        }
      } else if current.Block? {
        BlockStep(constants, lib, goal, currentBlock, currentIndexInBlock, currentCodeBlock, rescans);
        currentIndexInBlock := [0] + currentIndexInBlock[0 := index + 1];
        currentCodeBlock := [OpenScope(current.region, map[])] + currentCodeBlock;
        currentBlock := [current.region] + currentBlock;
        rescans := [false] + rescans[0 := false];
      } else if current.token.kind == Note {
        NoteStep(constants, lib, goal, currentBlock, currentIndexInBlock, currentCodeBlock, rescans);
        currentIndexInBlock := currentIndexInBlock[0 := index + 1];
        rescans := rescans[0 := false];
        inComment := true;
      } else {
        var step := Declaration(constants, lib, block.children, index, currentCodeBlock[0]);
        HaltStep(constants, lib, goal, currentBlock, currentIndexInBlock, currentCodeBlock, rescans);
        match step
        case Next(next, scope) =>
          NextStep(constants, lib, goal, currentBlock, currentIndexInBlock, currentCodeBlock, rescans, next, scope);
          currentIndexInBlock := currentIndexInBlock[0 := next];
          currentCodeBlock := currentCodeBlock[0 := scope];
          rescans := rescans[0 := false];
        case Enter(next, scope, at, inner) =>
          DefineStep(constants, lib, goal, currentBlock, currentIndexInBlock, currentCodeBlock, rescans, next, scope, at, inner);
          var body := block.children[at].region;
          currentIndexInBlock := [0] + currentIndexInBlock[0 := next];
          currentCodeBlock := [inner] + currentCodeBlock[0 := scope];
          currentBlock := [body] + currentBlock;
          rescans := [false] + rescans[0 := next == at];
        case Stop(e) =>
          return Failure(e);
        case Crash =>
          return Thrown;
      }
    }
    return Success(root);
  }

  // ---------------------------------------------------------------------------
  // What the declaration scan promises.

  lemma ExtendsTransitive(a: Scope, b: Scope, c: Scope)
    requires Extends(a, b) && Extends(b, c)
    ensures Extends(a, c)
  {
  }

  /** The scan only ever adds: every name of the starting scope is kept, and
      its nested scopes stay first. */
  lemma {:induction false} ScanKeeps(constants: seq<string>, lib: Library, r: Region, k: nat, scope: Scope, c: bool)
    requires k <= |r.children|
    ensures var x := ScanItems(constants, lib, r, k, scope, c);
      x.Success? ==> Extends(scope, x.value.0)
    decreases r, |r.children| - k, 1
  {
    var items := r.children;
    if k == |items| {
    } else if c {
      ScanKeeps(constants, lib, r, k + 1, scope, !(items[k].Leaf? && items[k].token.kind == EndOfSentence));
    } else if items[k].Block? {
      var body := items[k].region;
      AfterKeeps(constants, lib, r, k + 1, scope, ScanItems(constants, lib, body, 0, OpenScope(body, map[]), false));
    } else if items[k].token.kind == Note {
      ScanKeeps(constants, lib, r, k + 1, scope, true);
    } else {
      match Declaration(constants, lib, items, k, scope)
      case Next(next, s) =>
        ScanKeeps(constants, lib, r, next, s, false);
        var x := ScanItems(constants, lib, r, next, s, false);
        if x.Success? {
          ExtendsTransitive(scope, s, x.value.0);
        }
      case Enter(next, s, at, inner) =>
        var y := ScanItems(constants, lib, items[at].region, 0, inner, false);
        AfterKeeps(constants, lib, r, next, s, y);
        var x := AfterBlock(constants, lib, r, next, s, y);
        if x.Success? {
          ExtendsTransitive(scope, s, x.value.0);
        }
      case Stop(_) =>
      case Crash =>
    }
  }

  /** After a nested region's scan, its scope is the next child. */
  lemma {:induction false} AfterKeeps(constants: seq<string>, lib: Library, r: Region, next: nat, scope: Scope,
                                      inner: Attempt<(Scope, bool)>)
    requires next <= |r.children|
    ensures var x := AfterBlock(constants, lib, r, next, scope, inner);
      (x.Success? ==> (inner.Success? && Extends(scope, x.value.0)
        && |scope.children| < |x.value.0.children| && x.value.0.children[|scope.children|] == inner.value.0))
      && (inner.Failure? ==> x == Failure(inner.error))
      && (inner.Thrown? ==> x == Thrown)
    decreases r, |r.children| - next, 2
  {
    match inner
    case Success((child, c)) =>
      var grown := AddChild(scope, child);
      ScanKeeps(constants, lib, r, next, grown, c);
      var x := ScanItems(constants, lib, r, next, grown, c);
      if x.Success? {
        assert grown.children[|scope.children|] == child;
        assert x.value.0.children[|scope.children|] == child;
        ExtendsTransitive(scope, grown, x.value.0);
      }
    case Failure(_) =>
    case Thrown =>
  }

  /** A successful scan's root still has every built-in name and the span of
      the whole program. */
  lemma NamesSeeded(tokens: seq<Token>, constants: seq<string>, lib: Library)
    requires NamesOf(tokens, constants, lib).Success?
    ensures var root := NamesOf(tokens, constants, lib).value;
      var blocks := CodeBlocks(tokens, 0);
      (forall n :: n in constants ==> n in root.variables)
      && (forall n :: n in Builtins.UnaryNames ==> n in root.unaryOperators)
      && (forall n :: n in Builtins.BinaryNames ==> n in root.binaryOperators)
      && root.start == blocks.start && root.end == blocks.end
      && (blocks.children == [] ==> root == RootScope(blocks, constants))
  {
    var blocks := CodeBlocks(tokens, 0);
    if blocks.children != [] {
      ScanKeeps(constants, lib, blocks, 0, RootScope(blocks, constants), false);
    }
  }

  predicate CreateForm(items: seq<Item>, k: int)
  {
    LeafAt(items, k, Create) && LeafAt(items, k + 1, Variable) && LeafAt(items, k + 2, Identifier)
    && LeafAt(items, k + 3, EndOfSentence)
  }

  /** `crea variabile id .` declares `id` in the region's scope and the scan
      goes on after the `.`; the name is still there when the region is done. */
  lemma VariableDeclared(constants: seq<string>, lib: Library, r: Region, k: nat, scope: Scope)
    requires CreateForm(r.children, k)
    ensures var id := r.children[k + 2].token;
      var x := ScanItems(constants, lib, r, k, scope, false);
      x == ScanItems(constants, lib, r, k + 4, scope.(variables := scope.variables[id.value := id]), false)
      && (x.Success? ==> id.value in x.value.0.variables)
  {
    var id := r.children[k + 2].token;
    ScanKeeps(constants, lib, r, k + 4, scope.(variables := scope.variables[id.value := id]), false);
  }

  /** A `crea` not followed by `variabile`, an identifier and `.` stops the
      whole scan with a SyntaxError at the `crea`. */
  lemma CreateRejected(constants: seq<string>, lib: Library, r: Region, k: nat, scope: Scope)
    requires LeafAt(r.children, k, Create) && !CreateForm(r.children, k)
    ensures var x := ScanItems(constants, lib, r, k, scope, false);
      var keyword := r.children[k].token;
      x.Failure? && x.error.kind == SyntaxError && x.error.line == keyword.line && x.error.column == keyword.column
  {
  }

  predicate UnaryForm(items: seq<Item>, k: int)
  {
    LeafAt(items, k, Define) && LeafAt(items, k + 1, Identifier) && !Dotted(items[k + 1].token.value)
    && LeafAt(items, k + 2, With) && LeafAt(items, k + 3, Identifier) && !Dotted(items[k + 3].token.value)
    && k + 4 < |items| && items[k + 4].Block?
  }

  predicate BinaryForm(items: seq<Item>, k: int)
  {
    LeafAt(items, k, Define) && LeafAt(items, k + 1, Identifier) && !Dotted(items[k + 1].token.value)
    && LeafAt(items, k + 2, With) && LeafAt(items, k + 3, Identifier) && !Dotted(items[k + 3].token.value)
    && LeafAt(items, k + 4, And) && LeafAt(items, k + 5, Identifier) && !Dotted(items[k + 5].token.value)
    && k + 6 < |items| && items[k + 6].Block?
  }

  /** `define f cum a <body>`: `f` becomes a unary operator of the region's
      scope, and the body's scope, the next child, is scanned starting from
      the variables {a}. An error in the body is the scan's error. */
  lemma UnaryDefined(constants: seq<string>, lib: Library, r: Region, k: nat, scope: Scope)
    requires UnaryForm(r.children, k)
    ensures var f, a, body := r.children[k + 1].token, r.children[k + 3].token, r.children[k + 4].region;
      var inner := ScanItems(constants, lib, body, 0, OpenScope(body, map[a.value := a]), false);
      var x := ScanItems(constants, lib, r, k, scope, false);
      (x.Success? ==>
        inner.Success? && f.value in x.value.0.unaryOperators
        && |scope.children| < |x.value.0.children| && x.value.0.children[|scope.children|] == inner.value.0
        && a.value in inner.value.0.variables && inner.value.0.start == body.start && inner.value.0.end == body.end)
      && (inner.Failure? ==> x == Failure(inner.error))
  {
    var f, a, body := r.children[k + 1].token, r.children[k + 3].token, r.children[k + 4].region;
    var entry := OpenScope(body, map[a.value := a]);
    var s := scope.(unaryOperators := scope.unaryOperators[f.value := f]);
    var inner := ScanItems(constants, lib, body, 0, entry, false);
    assert Declaration(constants, lib, r.children, k, scope) == Enter(k + 5, s, k + 4, entry);
    AfterKeeps(constants, lib, r, k + 5, s, inner);
    ScanKeeps(constants, lib, body, 0, entry, false);
  }

  /** `define f cum a et b <body>`: `f` becomes a binary operator, and the
      body's scope started from {a, b} is the next child. The scan does not
      step past the body, so (outside a comment) the body is scanned once more
      as a plain region, whose scope is the child after it. */
  lemma BinaryDefined(constants: seq<string>, lib: Library, r: Region, k: nat, scope: Scope)
    requires BinaryForm(r.children, k)
    ensures var f, a, b, body := r.children[k + 1].token, r.children[k + 3].token, r.children[k + 5].token,
        r.children[k + 6].region;
      var inner := ScanItems(constants, lib, body, 0, OpenScope(body, map[a.value := a][b.value := b]), false);
      var plain := ScanItems(constants, lib, body, 0, OpenScope(body, map[]), false);
      var x := ScanItems(constants, lib, r, k, scope, false);
      var n := |scope.children|;
      (x.Success? ==>
        inner.Success? && f.value in x.value.0.binaryOperators
        && n < |x.value.0.children| && x.value.0.children[n] == inner.value.0
        && a.value in inner.value.0.variables && b.value in inner.value.0.variables
        && (!inner.value.1 ==> plain.Success? && n + 1 < |x.value.0.children| && x.value.0.children[n + 1] == plain.value.0))
      && (inner.Failure? ==> x == Failure(inner.error))
  {
    var f, a, b, body := r.children[k + 1].token, r.children[k + 3].token, r.children[k + 5].token, r.children[k + 6].region;
    var entry := OpenScope(body, map[a.value := a][b.value := b]);
    var s := scope.(binaryOperators := scope.binaryOperators[f.value := f]);
    var inner := ScanItems(constants, lib, body, 0, entry, false);
    assert Declaration(constants, lib, r.children, k, scope) == Enter(k + 6, s, k + 6, entry);
    AfterKeeps(constants, lib, r, k + 6, s, inner);
    ScanKeeps(constants, lib, body, 0, entry, false);
    var x := ScanItems(constants, lib, r, k, scope, false);
    if x.Success? && !inner.value.1 {
      var grown := AddChild(s, inner.value.0);
      var plain := ScanItems(constants, lib, body, 0, OpenScope(body, map[]), false);
      assert x == ScanItems(constants, lib, r, k + 6, grown, false);
      assert x == AfterBlock(constants, lib, r, k + 7, grown, plain);
      AfterKeeps(constants, lib, r, k + 7, grown, plain);
      assert |grown.children| == |scope.children| + 1;
    }
  }

  /** A `define` with a dotted name after `define`, `cum` or `et`. */
  predicate DottedDefine(items: seq<Item>, k: int)
  {
    LeafAt(items, k, Define) && LeafAt(items, k + 1, Identifier)
    && (Dotted(items[k + 1].token.value)
      || (LeafAt(items, k + 2, With) && LeafAt(items, k + 3, Identifier) && Dotted(items[k + 3].token.value))
      || (LeafAt(items, k + 2, With) && LeafAt(items, k + 3, Identifier) && LeafAt(items, k + 4, And)
        && LeafAt(items, k + 5, Identifier) && Dotted(items[k + 5].token.value)))
  }

  /** A dotted name after `define`, `cum` or `et` stops the scan with a
      SyntaxError at the `define`. */
  lemma DottedRejected(constants: seq<string>, lib: Library, r: Region, k: nat, scope: Scope)
    requires DottedDefine(r.children, k)
    ensures var x := ScanItems(constants, lib, r, k, scope, false);
      var keyword := r.children[k].token;
      x.Failure? && x.error.kind == SyntaxError && x.error.line == keyword.line && x.error.column == keyword.column
  {
  }

  predicate ImportForm(items: seq<Item>, k: int)
  {
    LeafAt(items, k, Import) && LeafAt(items, k + 1, Identifier) && LeafAt(items, k + 2, From)
    && LeafAt(items, k + 3, StringLiteral) && LeafAt(items, k + 4, EndOfSentence)
  }

  /** `profer alias ab "p" .` with a path that names no readable file, or a
      file whose own scan failed, stops the scan. */
  lemma ImportRejected(constants: seq<string>, lib: Library, r: Region, k: nat, scope: Scope)
    requires ImportForm(r.children, k)
    requires var path := ImportPath(r.children[k + 3].token.value); path !in lib || lib[path].Err?
    ensures var keyword := r.children[k].token;
      var path := ImportPath(r.children[k + 3].token.value);
      var x := ScanItems(constants, lib, r, k, scope, false);
      (path !in lib ==>
        x == Failure(ErrorAt(ImportError, "could not read file '" + path + "'", keyword.line, keyword.column, keyword.file)))
      && (path in lib ==> x == Failure(lib[path].error))
  {
    var keyword := r.children[k].token;
    var path := ImportPath(r.children[k + 3].token.value);
    var e := Imported(lib, path, keyword).error;
    assert ImportNames(constants, lib, r.children, k, scope) == Stop(e);
    assert Declaration(constants, lib, r.children, k, scope) == Stop(e);
  }

  /** `profer alias ab "p" .` with a file that scanned: `alias` is declared,
      the file's names that are not built-ins are added as `alias.name` and
      nothing else, and the scan goes on after the `.`. */
  lemma ImportQualifies(constants: seq<string>, lib: Library, r: Region, k: nat, scope: Scope)
    requires ImportForm(r.children, k)
    requires var path := ImportPath(r.children[k + 3].token.value); path in lib && lib[path].Ok?
    ensures var alias := r.children[k + 1].token;
      var ext := lib[ImportPath(r.children[k + 3].token.value)].value;
      var step := Declaration(constants, lib, r.children, k, scope);
      Imports(constants, alias.value, ext, scope, step)
      && ScanItems(constants, lib, r, k, scope, false) == ScanItems(constants, lib, r, k + 5, step.scope, false)
  {
    var alias := r.children[k + 1].token;
    var ext := lib[ImportPath(r.children[k + 3].token.value)].value;
    var named := scope.(variables := scope.variables[alias.value := alias]);
    ImportStep(constants, lib, r.children, k, scope);
    ImportAdds(constants, alias, ext, scope, k + 5);
    ScanAtNext(constants, lib, r, k, scope);
  }

  /** The step an import with a readable path takes. */
  lemma ImportStep(constants: seq<string>, lib: Library, items: seq<Item>, k: nat, scope: Scope)
    requires ImportForm(items, k)
    requires var path := ImportPath(items[k + 3].token.value); path in lib && lib[path].Ok?
    ensures var alias := items[k + 1].token;
      Declaration(constants, lib, items, k, scope)
      == Next(k + 5, Qualify(scope.(variables := scope.variables[alias.value := alias]), alias.value,
                             lib[ImportPath(items[k + 3].token.value)].value, constants))
  {
    assert items[k].token.kind == Import;
    assert Declaration(constants, lib, items, k, scope) == ImportNames(constants, lib, items, k, scope);
    var path := ImportPath(items[k + 3].token.value);
    assert Imported(lib, path, items[k].token) == lib[path];
  }

  /** A declaration that steps over its sentence lets the scan go on after it. */
  lemma ScanAtNext(constants: seq<string>, lib: Library, r: Region, k: nat, scope: Scope)
    requires k < |r.children| && r.children[k].Leaf? && r.children[k].token.kind != Note
    requires Declaration(constants, lib, r.children, k, scope).Next?
    ensures var step := Declaration(constants, lib, r.children, k, scope);
      ScanItems(constants, lib, r, k, scope, false) == ScanItems(constants, lib, r, step.next, step.scope, false)
  {
  }

  /** The step of an import that succeeded: it goes on after the `.`, `alias`
      and each `alias.n`, with `n` a name of the file that is not a built-in,
      are new, and every other name is as it was. */
  predicate Imports(constants: seq<string>, alias: string, ext: Scope, scope: Scope, step: Step)
  {
    step.Next? && alias in step.scope.variables && step.scope.children == scope.children
    && (forall n :: n in ext.variables && n !in constants ==> alias + "." + n in step.scope.variables)
    && (forall n :: n in ext.unaryOperators && n !in Builtins.UnaryNames ==> alias + "." + n in step.scope.unaryOperators)
    && (forall n :: n in ext.binaryOperators && n !in Builtins.BinaryNames ==> alias + "." + n in step.scope.binaryOperators)
    && (forall q :: q in step.scope.variables && q !in scope.variables ==>
      q == alias || exists n :: n in ext.variables && n !in constants && q == alias + "." + n)
    && (forall q :: q in step.scope.unaryOperators && q !in scope.unaryOperators ==>
      exists n :: n in ext.unaryOperators && n !in Builtins.UnaryNames && q == alias + "." + n)
    && (forall q :: q in step.scope.binaryOperators && q !in scope.binaryOperators ==>
      exists n :: n in ext.binaryOperators && n !in Builtins.BinaryNames && q == alias + "." + n)
  }

  lemma ImportAdds(constants: seq<string>, alias: Token, ext: Scope, scope: Scope, at: nat)
    ensures var named := scope.(variables := scope.variables[alias.value := alias]);
      Imports(constants, alias.value, ext, scope, Next(at, Qualify(named, alias.value, ext, constants)))
  {
  }
}
