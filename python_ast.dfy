/** The part of a Python syntax tree the explain command looks at, and `ast.walk`.
    Parsing and unparsing belong to Python's `ast` module and are not modelled: a tree
    arrives already parsed, with each definition's unparsed source, docstring, default
    values and base classes attached as text. */
module PyAst {
  import opened Util

  datatype DefKind = FunctionDef | AsyncFunctionDef | ClassDef

  datatype Kind =
    | Def(defKind: DefKind, name: string, lineno: nat, docstring: Option<string>, source: string,
          args: seq<string>, defaults: seq<string>, bases: seq<string>)
    | For
    | While
    | If
      /** A call; `callee` is the called name when the called expression is a bare name
          (the only kind of expression with an `id` attribute). */
    | Call(callee: Option<string>)
    | OtherNode
  {
    predicate IsFunction() {
      Def? && defKind != ClassDef
    }
    predicate IsLoop() {
      For? || While?
    }
  }

  /** A node and its children in the order `ast.iter_child_nodes` yields them: the fields
      before `body`, the `body` statements, then the fields after it. */
  datatype Node = Node(kind: Kind, pre: seq<Node>, body: seq<Node>, post: seq<Node>) {
    function Children(): seq<Node> {
      pre + body + post
    }
  }

  function Size(n: Node): nat
    decreases n
  {
    1 + SizeAll(n.pre) + SizeAll(n.body) + SizeAll(n.post)
  }

  function SizeAll(s: seq<Node>): nat
    decreases s
  {
    if s == [] then 0 else Size(s[0]) + SizeAll(s[1..])
  }

  lemma {:induction false} SizeAllConcat(a: seq<Node>, b: seq<Node>)
    decreases |a|
    ensures SizeAll(a + b) == SizeAll(a) + SizeAll(b)
  {
    if a != [] {
      assert (a + b)[1..] == a[1..] + b;
      SizeAllConcat(a[1..], b);
    } else {
      assert a + b == b;
    }
  }

  lemma SizeChildren(n: Node)
    ensures SizeAll(n.Children()) + 1 == Size(n)
  {
    SizeAllConcat(n.pre, n.body);
    SizeAllConcat(n.pre + n.body, n.post);
  }

  /** `ast.walk` over a queue of pending nodes: breadth first, each node followed later by
      its children in order. */
  function WalkQueue(todo: seq<Node>): seq<Node>
    decreases SizeAll(todo)
  {
    if todo == [] then []
    else
      SizeChildren(todo[0]);
      SizeAllConcat(todo[1..], todo[0].Children());
      [todo[0]] + WalkQueue(todo[1..] + todo[0].Children())
  }

  /** `ast.walk(n)`. */
  function Walk(n: Node): seq<Node> {
    WalkQueue([n])
  }

  /** `m` is `n` or a node below it. */
  predicate Within(m: Node, n: Node)
    decreases n
  {
    m == n || WithinAny(m, n.pre) || WithinAny(m, n.body) || WithinAny(m, n.post)
  }

  predicate WithinAny(m: Node, s: seq<Node>)
    decreases s
  {
    exists i :: 0 <= i < |s| && Within(m, s[i])
  }

  lemma WithinAnyConcat(m: Node, a: seq<Node>, b: seq<Node>)
    ensures WithinAny(m, a + b) <==> WithinAny(m, a) || WithinAny(m, b)
  {
    if WithinAny(m, a + b) {
      var i :| 0 <= i < |a + b| && Within(m, (a + b)[i]);
      if i >= |a| { assert (a + b)[i] == b[i - |a|]; }
    }
    if WithinAny(m, a) {
      var i :| 0 <= i < |a| && Within(m, a[i]);
      assert (a + b)[i] == a[i];
    }
    if WithinAny(m, b) {
      var i :| 0 <= i < |b| && Within(m, b[i]);
      assert (a + b)[|a| + i] == b[i];
    }
  }

  lemma WithinAnyCons(m: Node, s: seq<Node>)
    requires s != []
    ensures WithinAny(m, s) <==> Within(m, s[0]) || WithinAny(m, s[1..])
  {
    if WithinAny(m, s) {
      var i :| 0 <= i < |s| && Within(m, s[i]);
      if i > 0 { assert s[1..][i - 1] == s[i]; }
    }
    if WithinAny(m, s[1..]) {
      var i :| 0 <= i < |s[1..]| && Within(m, s[1..][i]);
      assert s[i + 1] == s[1..][i];
    }
  }

  /** The walk visits exactly the nodes of the pending trees. */
  lemma {:induction false} WalkQueueComplete(todo: seq<Node>, m: Node)
    decreases SizeAll(todo)
    ensures m in WalkQueue(todo) <==> WithinAny(m, todo)
  {
    if todo != [] {
      var n := todo[0];
      SizeChildren(n);
      SizeAllConcat(todo[1..], n.Children());
      WalkQueueComplete(todo[1..] + n.Children(), m);
      WithinAnyConcat(m, todo[1..], n.Children());
      WithinAnyConcat(m, n.pre + n.body, n.post);
      WithinAnyConcat(m, n.pre, n.body);
      WithinAnyCons(m, todo);
    }
  }

  lemma WalkComplete(n: Node, m: Node)
    ensures m in Walk(n) <==> Within(m, n)
  {
    WalkQueueComplete([n], m);
    WithinAnyCons(m, [n]);
  }
}
