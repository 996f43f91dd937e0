/** A file tree: a map from path to node, with subtree removal and the rename of a subtree. */
module FileTree {
  import opened Wrappers

  type Path = seq<string>

  /** Where a link leads: an absolute path, or `rest` from `ups` directories above the link's own. */
  datatype Destination = Absolute(path: Path) | Relative(ups: nat, rest: Path)

  datatype Node = Directory | File(content: string, mode: nat) | Link(destination: Destination)

  type Tree = map<Path, Node>

  function At(t: Tree, p: Path): Option<Node> {
    if p in t then Some(t[p]) else None
  }

  function Parent(p: Path): Path {
    if p == [] then [] else p[..|p| - 1]
  }

  /** The path that a link at `p` leads to. */
  function Resolve(p: Path, destination: Destination): Path {
    match destination
    case Absolute(path) => path
    case Relative(ups, rest) =>
      var parent := Parent(p);
      (if ups <= |parent| then parent[..|parent| - ups] else []) + rest
  }

  /** The most links that the lookup of a path follows. */
  const MAX_LINKS: nat := 40

  predicate ExistsWithin(t: Tree, p: Path, links: nat)
    decreases links, |t|
  {
    p in t && (t[p].Link? ==> links > 0 && ExistsWithin(t, Resolve(p, t[p].destination), links - 1))
  }

  /** What `existsSync` reports: a link that leads nowhere does not exist. */
  predicate Exists(t: Tree, p: Path) {
    ExistsWithin(t, p, MAX_LINKS)
  }

  /** The node at `rest` within the package at `root`. */
  function Within(t: Tree, root: Path, rest: Path): Option<Node> {
    At(t, root + rest)
  }

  /** `p` is `root` or lies below it. */
  predicate Under(p: Path, root: Path) {
    root <= p
  }

  predicate Apart(p: Path, q: Path) {
    !(p <= q) && !(q <= p)
  }

  /** The node at `p` once `root` is removed and then `from`, if any, is renamed to `to`. */
  function MovedAt(t: Tree, from: Path, to: Path, p: Path): Option<Node> {
    if Under(p, to) then At(t, from + p[|to|..])
    else if Under(p, from) then None
    else At(t, p)
  }

  /** `u` is `t` with what is under `from` found under `to`, in place of whatever was there. */
  ghost predicate Renamed(t: Tree, from: Path, to: Path, u: Tree) {
    forall p {:trigger MovedAt(t, from, to, p)} :: At(u, p) == MovedAt(t, from, to, p)
  }

  ghost predicate Changed(t: Tree, changes: map<Path, Option<Node>>, u: Tree) {
    forall p :: At(u, p) == if p in changes then changes[p] else At(t, p)
  }

  /** The package that was at `from` is at `to`. */
  lemma RenamedPackage(t: Tree, from: Path, to: Path, u: Tree, rest: Path)
    requires Renamed(t, from, to, u)
    ensures Within(u, to, rest) == Within(t, from, rest)
  {
    var p := to + rest;
    assert p[|to|..] == rest;
    assert At(u, p) == MovedAt(t, from, to, p);
  }

  /** Nothing is left behind. */
  lemma RenamedLeaves(t: Tree, from: Path, to: Path, u: Tree, p: Path)
    requires Renamed(t, from, to, u) && Under(p, from) && !Under(p, to)
    ensures At(u, p) == None
  {
    assert At(u, p) == MovedAt(t, from, to, p);
  }

  /** Anything away from both places stays. */
  lemma RenamedElsewhere(t: Tree, from: Path, to: Path, u: Tree, p: Path)
    requires Renamed(t, from, to, u) && !Under(p, from) && !Under(p, to)
    ensures At(u, p) == At(t, p)
  {
    assert At(u, p) == MovedAt(t, from, to, p);
  }

  lemma NotUnderBoth(p: Path, root: Path, other: Path)
    requires Under(p, root) && Apart(root, other)
    ensures !Under(p, other)
  {
    if |root| <= |other| {
      assert root[..] == p[..|root|];
    } else {
      assert p[..|other|] == root[..|other|];
    }
  }

  lemma SameEverywhere(t: Tree, u: Tree)
    requires forall p :: At(t, p) == At(u, p)
    ensures t == u
  {
    assert forall p :: p in t <==> At(t, p).Some?;
    assert forall p :: p in u <==> At(u, p).Some?;
    assert forall p | p in t :: At(t, p) == Some(t[p]) && At(u, p) == Some(u[p]);
  }

  /** The part of the file system that the program changes. */
  class FileSystem {
    var tree: Tree

    constructor (tree: Tree)
      ensures this.tree == tree
    {
      this.tree := tree;
    }

    /** `rm -r`: `root` and everything below it is gone. */
    method Remove(root: Path)
      modifies this
      ensures forall p :: At(tree, p) == if Under(p, root) then None else At(old(tree), p)
    {
      tree := map p | p in tree && !Under(p, root) :: tree[p];
    }

    /** `rename`: all of `from` appears at `to` at once. */
    method Rename(from: Path, to: Path)
      requires from in tree
      modifies this
      ensures Renamed(old(tree), from, to, tree)
    {
      var before := tree;
      var images := set p | p in before && Under(p, from) :: to + p[|from|..];
      assert forall p | MovedAt(before, from, to, p).Some? :: p in before.Keys + images by {
        forall p | Under(p, to) && from + p[|to|..] in before ensures p in images {
          var source := from + p[|to|..];
          assert source[|from|..] == p[|to|..];
          assert to + source[|from|..] == p;
        }
      }
      tree := map p | p in before.Keys + images && MovedAt(before, from, to, p).Some? :: MovedAt(before, from, to, p).value;
    }

    /** Any change at the given paths: a new node, or none. */
    method Change(changes: map<Path, Option<Node>>)
      modifies this
      ensures Changed(old(tree), changes, tree)
    {
      var written := map p | p in changes && changes[p].Some? :: changes[p].value;
      tree := (map p | p in tree && p !in changes :: tree[p]) + written;
    }

    /** A rename that may fail, and then changes nothing; it fails when there is nothing to rename. */
    method TryRename(from: Path, to: Path) returns (ok: bool)
      modifies this
      ensures ok ==> from in old(tree) && Renamed(old(tree), from, to, tree)
      ensures !ok ==> tree == old(tree)
    {
      ok := *;
      ok := ok && from in tree;
      if ok {
        Rename(from, to);
      }
    }
  }
}
