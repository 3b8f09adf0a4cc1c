/**
 The sanitize-before-send guard of the static check: from a send call up to its enclosing function,
 then down through that function's body, pruning nested functions and everything that does not start
 before the send.
 */
module SanitizeWalk {

  /** What the guard distinguishes. A function-like node may have a body, one of its children. */
  datatype Kind = FunctionLike(hasBody: bool, body: nat) | SanitizeCall | Other

  datatype Node = Node(kind: Kind, start: nat, children: seq<Node>)

  /** A position in a tree: the child to take at each level. */
  type Path = seq<nat>

  predicate IsPath(node: Node, path: Path) {
    path == [] || (path[0] < |node.children| && IsPath(node.children[path[0]], path[1..]))
  }

  function At(node: Node, path: Path): Node
    requires IsPath(node, path)
  {
    if path == [] then node else At(node.children[path[0]], path[1..])
  }

  lemma {:induction false} PrefixIsPath(node: Node, path: Path, k: nat)
    requires IsPath(node, path) && k <= |path|
    ensures IsPath(node, path[..k])
  {
    if k > 0 {
      PrefixIsPath(node.children[path[0]], path[1..], k - 1);
      assert path[..k][1..] == path[1..][..k - 1];
    }
  }

  /** No node starts before its parent, as in any syntax tree, and bodies are children. */
  ghost predicate Ordered(node: Node) {
    && (node.kind.FunctionLike? && node.kind.hasBody ==> node.kind.body < |node.children|)
    && forall child | child in node.children :: node.start <= child.start && Ordered(child)
  }

  /** No node from `node` down to the one at `path` is function-like. */
  ghost predicate Open(node: Node, path: Path)
    requires IsPath(node, path)
  {
    !node.kind.FunctionLike? && (path != [] ==> Open(node.children[path[0]], path[1..]))
  }

  /** The node at `path` is a sanitize call that starts before `target`, with no function in between. */
  ghost predicate Sanitizes(node: Node, path: Path, target: nat) {
    && IsPath(node, path)
    && Open(node, path)
    && At(node, path).kind.SanitizeCall?
    && At(node, path).start < target
  }

  ghost predicate CanSanitize(node: Node, target: nat) {
    exists path :: Sanitizes(node, path, target)
  }

  /** The same below the root of the walk, which may itself be a function. */
  ghost predicate SanitizesBelow(root: Node, path: Path, target: nat) {
    && IsPath(root, path)
    && (path != [] ==> Open(root.children[path[0]], path[1..]))
    && At(root, path).kind.SanitizeCall?
    && At(root, path).start < target
  }

  ghost predicate RootCanSanitize(root: Node, target: nat) {
    exists path :: SanitizesBelow(root, path, target)
  }

  lemma {:induction false} StartsNoEarlier(node: Node, path: Path)
    requires Ordered(node) && IsPath(node, path)
    ensures node.start <= At(node, path).start
  {
    if path != [] {
      StartsNoEarlier(node.children[path[0]], path[1..]);
    }
  }

  lemma SanitizesIff(node: Node, target: nat)
    requires Ordered(node)
    ensures CanSanitize(node, target) <==>
            && !node.kind.FunctionLike?
            && node.start < target
            && (node.kind.SanitizeCall? || exists child :: child in node.children && CanSanitize(child, target))
  {
    if CanSanitize(node, target) {
      var path :| Sanitizes(node, path, target);
      StartsNoEarlier(node, path);
      if path != [] {
        var child := node.children[path[0]];
        assert child in node.children;
        assert Sanitizes(child, path[1..], target);
        assert CanSanitize(child, target);
      }
    }
    if !node.kind.FunctionLike? && node.start < target {
      if node.kind.SanitizeCall? {
        assert Sanitizes(node, [], target);
      } else if exists child :: child in node.children && CanSanitize(child, target) {
        var child :| child in node.children && CanSanitize(child, target);
        var i: nat :| i < |node.children| && node.children[i] == child;
        var path :| Sanitizes(child, path, target);
        assert ([i] + path)[1..] == path;
        assert Sanitizes(node, [i] + path, target);
      }
    }
  }

  /** The `visit` closure: once something is found it does nothing more. */
  method Visit(node: Node, isRoot: bool, target: nat, found: bool) returns (now: bool)
    requires Ordered(node)
    ensures now <==> found || (if isRoot then RootCanSanitize(node, target) else CanSanitize(node, target))
    decreases node, 1
  {
    if found { return true; }
    SanitizesIff(node, target);
    if isRoot { RootIff(node, target); }
    if !isRoot && node.kind.FunctionLike? { return false; }
    if node.start >= target { return false; }
    if node.kind.SanitizeCall? { return true; }
    now := VisitChildren(node, target);
  }

  method VisitChildren(node: Node, target: nat) returns (now: bool)
    requires Ordered(node)
    ensures now <==> exists child :: child in node.children && CanSanitize(child, target)
    decreases node, 0
  {
    now := false;
    for i := 0 to |node.children|
      invariant now <==> exists child :: child in node.children[..i] && CanSanitize(child, target)
    {
      assert node.children[..i + 1] == node.children[..i] + [node.children[i]];
      now := Visit(node.children[i], false, target, now);
    }
    assert node.children[..|node.children|] == node.children;
  }

  lemma RootIff(root: Node, target: nat)
    requires Ordered(root)
    ensures RootCanSanitize(root, target) <==>
            && root.start < target
            && (root.kind.SanitizeCall? || exists child :: child in root.children && CanSanitize(child, target))
  {
    if RootCanSanitize(root, target) {
      var path :| SanitizesBelow(root, path, target);
      StartsNoEarlier(root, path);
      if path != [] {
        var child := root.children[path[0]];
        assert child in root.children;
        assert Sanitizes(child, path[1..], target);
        assert CanSanitize(child, target);
        StartsNoEarlier(child, path[1..]);
      }
    }
    if root.start < target {
      if root.kind.SanitizeCall? {
        assert SanitizesBelow(root, [], target);
      } else if exists child :: child in root.children && CanSanitize(child, target) {
        var child :| child in root.children && CanSanitize(child, target);
        var i: nat :| i < |root.children| && root.children[i] == child;
        var path :| Sanitizes(child, path, target);
        assert ([i] + path)[1..] == path;
        assert SanitizesBelow(root, [i] + path, target);
      }
    }
  }

  // ----- From the send call -----

  /** `scope` is where the nearest function around `send` is, or the source file if there is none. */
  ghost predicate Encloses(file: Node, send: Path, scope: Path)
    requires IsPath(file, send)
  {
    && scope <= send
    && (forall k: nat | |scope| < k < |send| ::
          IsPath(file, send[..k]) && !At(file, send[..k]).kind.FunctionLike?)
    && IsPath(file, scope)
    && (scope == [] || (scope < send && At(file, scope).kind.FunctionLike?))
  }

  /** `findEnclosingFunction`: up through the parents. */
  method FindEnclosingFunction(file: Node, send: Path) returns (scope: Path)
    requires IsPath(file, send)
    ensures Encloses(file, send, scope)
  {
    scope := send;
    while scope != []
      invariant scope <= send
      invariant forall k: nat | |scope| <= k < |send| ::
                  IsPath(file, send[..k]) && !At(file, send[..k]).kind.FunctionLike?
      decreases |scope|
    {
      var parent := scope[..|scope| - 1];
      assert parent == send[..|parent|];
      PrefixIsPath(file, send, |parent|);
      if At(file, parent).kind.FunctionLike? { return parent; }
      scope := parent;
    }
  }

  /** The guard's answer for one send call is yes exactly when, somewhere in the enclosing function's
      body (or in the file, for a send outside any function), a sanitize call starts before the send
      and is not inside a nested function. */
  method HasSanitizeBeforeSend(file: Node, send: Path) returns (found: bool, ghost scope: Path, ghost root: Node)
    requires Ordered(file) && IsPath(file, send)
    ensures Encloses(file, send, scope)
    ensures var fn := At(file, scope);
            root == if fn.kind.FunctionLike? && fn.kind.hasBody && fn.kind.body < |fn.children|
                    then fn.children[fn.kind.body] else fn
    ensures found <==> RootCanSanitize(root, At(file, send).start)
  {
    var enclosing := FindEnclosingFunction(file, send);
    var fn := At(file, enclosing);
    OrderedAt(file, enclosing);
    var start := if fn.kind.FunctionLike? && fn.kind.hasBody then fn.children[fn.kind.body] else fn;
    scope, root := enclosing, start;
    found := Visit(start, true, At(file, send).start, false);
  }

  lemma {:induction false} OrderedAt(node: Node, path: Path)
    requires Ordered(node) && IsPath(node, path)
    ensures Ordered(At(node, path))
  {
    if path != [] {
      OrderedAt(node.children[path[0]], path[1..]);
    }
  }
}
