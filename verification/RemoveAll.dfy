// The recursive delete of internal/exec/ssh.go, over an SFTP server that can only
// remove one file or one empty directory at a time and may fail at any call.
module RemoveAll {
  import opened Wrappers

  type Path = seq<string>
  // A symbolic link is an entry of its own; nothing lies below it.
  datatype Kind = File | Symlink(target: Path) | Dir
  type Tree = map<Path, Kind>
  datatype Errno = NotExist | NotEmpty | Failure

  predicate WellFormed(tree: Tree) {
    forall q :: q in tree && |q| > 0 ==> q[..|q| - 1] in tree && tree[q[..|q| - 1]] == Dir
  }

  // p and everything below it.
  function Subtree(tree: Tree, p: Path): set<Path> {
    set q | q in tree && p <= q
  }

  function Pruned(tree: Tree, p: Path): Tree {
    tree - Subtree(tree, p)
  }

  function ChildNames(tree: Tree, p: Path): set<string> {
    set q | q in tree && |q| == |p| + 1 && p <= q :: q[|p|]
  }

  // `after` lacks some entries of `before`, all of them at or below p.
  ghost predicate OnlyBelow(before: Tree, after: Tree, p: Path) {
    && (forall q :: q in after ==> q in before && after[q] == before[q])
    && (forall q :: q in before && !(p <= q) ==> q in after)
  }

  lemma {:induction false} AncestorPresent(tree: Tree, q: Path, n: nat)
    requires WellFormed(tree) && q in tree && n <= |q|
    ensures q[..n] in tree && (n < |q| ==> tree[q[..n]] == Dir)
    decreases |q|
  {
    if n < |q| {
      var parent := q[..|q| - 1];
      AncestorPresent(tree, parent, n);
      assert parent[..n] == q[..n];
    } else {
      assert q[..n] == q;
    }
  }

  lemma LeafSubtree(tree: Tree, p: Path)
    requires WellFormed(tree) && (p in tree ==> tree[p] != Dir)
    ensures Subtree(tree, p) == if p in tree then {p} else {}
  {
    forall q | q in Subtree(tree, p)
      ensures q == p && p in tree
    {
      AncestorPresent(tree, q, |p|);
      assert q[..|p|] == p;
      assert |q| == |p| ==> q[..|p|] == q;
    }
  }

  lemma PrunedWellFormed(tree: Tree, p: Path)
    requires WellFormed(tree)
    ensures WellFormed(Pruned(tree, p))
  {
    forall q | q in Pruned(tree, p) && |q| > 0
      ensures q[..|q| - 1] in Pruned(tree, p)
    {
      assert p <= q[..|q| - 1] ==> p <= q;
    }
  }

  // The part of the tree below the first entries of p's listing.
  function Listed(tree: Tree, p: Path, names: seq<string>): set<Path> {
    set q | q in tree && p <= q && |q| > |p| && q[|p|] in names
  }

  lemma ListedNone(tree: Tree, p: Path)
    ensures tree - Listed(tree, p, []) == tree
  {
    assert Listed(tree, p, []) == {};
  }

  lemma ListedSnoc(tree: Tree, p: Path, names: seq<string>, name: string)
    requires name !in names
    ensures tree - Listed(tree, p, names + [name]) == Pruned(tree - Listed(tree, p, names), p + [name])
  {
    var rest := tree - Listed(tree, p, names);
    forall q | q in tree
      ensures q in Listed(tree, p, names + [name]) <==> q in Listed(tree, p, names) || q in Subtree(rest, p + [name])
    {
      if p <= q && |q| > |p| {
        assert q[..|p| + 1] == p + [q[|p|]];
      }
    }
  }

  lemma ListedNext(tree: Tree, p: Path, names: seq<string>, i: nat)
    requires i < |names| && forall j, k :: 0 <= j < k < |names| ==> names[j] != names[k]
    ensures tree - Listed(tree, p, names[..i + 1]) == Pruned(tree - Listed(tree, p, names[..i]), p + [names[i]])
  {
    assert names[..i + 1] == names[..i] + [names[i]];
    ListedSnoc(tree, p, names[..i], names[i]);
  }

  lemma ListedAll(tree: Tree, p: Path, names: seq<string>)
    requires WellFormed(tree) && p in tree
    requires forall name :: name in ChildNames(tree, p) ==> name in names
    ensures Subtree(tree, p) == Listed(tree, p, names) + {p}
  {
    forall q | q in Subtree(tree, p) && q != p
      ensures q in Listed(tree, p, names)
    {
      AncestorPresent(tree, q, |p| + 1);
      var child := q[..|p| + 1];
      assert p <= child && child[|p|] == q[|p|];
      assert q[|p|] in ChildNames(tree, p);
    }
  }

  // What a partly processed directory looks like.
  lemma ListedIsBelow(tree: Tree, after: Tree, p: Path, names: seq<string>, name: string)
    requires OnlyBelow(tree - Listed(tree, p, names), after, p + [name])
    ensures OnlyBelow(tree, after, p) && (p in tree ==> p in after)
  {
    assert !(p + [name] <= p);
    forall q | q in tree && !(p <= q)
      ensures q in after
    {
      assert p + [name] <= q ==> p <= q;
    }
  }

  lemma DirectoryEmptied(tree: Tree, p: Path, names: seq<string>)
    requires WellFormed(tree) && p in tree && tree[p] == Dir
    requires forall name :: name in names <==> name in ChildNames(tree, p)
    ensures
      var rest := tree - Listed(tree, p, names);
      && p in rest && rest[p] == Dir && ChildNames(rest, p) == {}
      && rest - {p} == Pruned(tree, p) && OnlyBelow(tree, rest, p)
  {
    var rest := tree - Listed(tree, p, names);
    ListedAll(tree, p, names);
    forall q | q in tree && |q| == |p| + 1 && p <= q
      ensures q in Listed(tree, p, names)
    {
      assert q[|p|] in ChildNames(tree, p);
    }
  }

  lemma SubtreeShrinks(before: Tree, after: Tree, p: Path, name: string)
    requires p in before && forall q :: q in after ==> q in before
    ensures |Subtree(after, p + [name])| < |Subtree(before, p)|
  {
    assert p in Subtree(before, p) && p !in Subtree(after, p + [name]);
    assert Subtree(after, p + [name]) <= Subtree(before, p) - {p};
    SubsetSize(Subtree(after, p + [name]), Subtree(before, p) - {p});
  }

  lemma {:induction false} SubsetSize<T>(a: set<T>, b: set<T>)
    requires a <= b
    ensures |a| <= |b|
  {
    if x :| x in a {
      SubsetSize(a - {x}, b - {x});
    }
  }

  // A failed delete can be retried: the tree a later success leaves is the one the
  // first attempt was after.
  lemma RetryCompletes(before: Tree, between: Tree, p: Path)
    requires OnlyBelow(before, between, p)
    ensures Pruned(between, p) == Pruned(before, p)
  {
    forall q
      ensures q in Pruned(between, p) <==> q in Pruned(before, p)
    {
    }
  }

  // ---------------------------------------------------------------- the server

  class Sftp {
    var tree: Tree
    // Calls that failed although the tree allowed them.
    ghost var faults: nat

    method Lstat(p: Path) returns (r: Result<Kind, Errno>)
      modifies this`faults
      ensures r.Ok? ==> p in tree && r.value == tree[p] && faults == old(faults)
      ensures r.Err? && r.error == NotExist ==> p !in tree && faults == old(faults)
      ensures r.Err? && r.error != NotExist ==> faults > old(faults)
    {
      var fault: bool := *;
      if fault {
        faults := faults + 1;
        return Err(Failure);
      }
      r := if p in tree then Ok(tree[p]) else Err(NotExist);
    }

    method ReadDir(p: Path) returns (r: Result<seq<string>, Errno>)
      requires p in tree && tree[p] == Dir
      modifies this`faults
      ensures r.Ok? ==> faults == old(faults)
      ensures r.Ok? ==> forall name :: name in r.value <==> name in ChildNames(tree, p)
      ensures r.Ok? ==> forall i, j :: 0 <= i < j < |r.value| ==> r.value[i] != r.value[j]
      ensures r.Err? ==> faults > old(faults)
    {
      var fault: bool := *;
      if fault {
        faults := faults + 1;
        return Err(Failure);
      }
      var names, left := [], ChildNames(tree, p);
      while left != {}
        invariant forall name :: name in ChildNames(tree, p) <==> name in names || name in left
        invariant forall name :: name in names ==> name !in left
        invariant forall i, j :: 0 <= i < j < |names| ==> names[i] != names[j]
        decreases left
      {
        var name :| name in left;
        names, left := names + [name], left - {name};
      }
      r := Ok(names);
    }

    method RemoveDirectory(p: Path) returns (err: Option<Errno>)
      requires p in tree && tree[p] == Dir
      modifies this
      ensures err.None? ==> ChildNames(old(tree), p) == {} && tree == old(tree) - {p} && faults == old(faults)
      ensures err.Some? ==> tree == old(tree)
      ensures err.Some? ==> faults > old(faults) || ChildNames(tree, p) != {}
    {
      var fault: bool := *;
      if fault {
        faults := faults + 1;
        return Some(Failure);
      }
      if ChildNames(tree, p) != {} {
        return Some(NotEmpty);
      }
      tree := tree - {p};
      err := None;
    }

    method Remove(p: Path) returns (err: Option<Errno>)
      requires p in tree && tree[p] != Dir
      modifies this
      ensures err.None? ==> tree == old(tree) - {p} && faults == old(faults)
      ensures err.Some? ==> tree == old(tree) && faults > old(faults)
    {
      var fault: bool := *;
      if fault {
        faults := faults + 1;
        return Some(Failure);
      }
      tree := tree - {p};
      err := None;
    }

    // Success removes exactly p and its descendants, and nothing when p is missing.
    // Failure means some call failed; it has removed nothing outside p's subtree, and
    // p itself is still there to be retried.
    method RemoveAll(p: Path) returns (err: Option<Errno>)
      requires WellFormed(tree)
      modifies this
      ensures WellFormed(tree)
      ensures err.None? ==> tree == Pruned(old(tree), p) && faults == old(faults)
      ensures err.Some? ==> faults > old(faults) && OnlyBelow(old(tree), tree, p)
      ensures err.Some? && p in old(tree) ==> p in tree
      decreases |Subtree(tree, p)|
    {
      ghost var tree0 := tree;
      var fi := Lstat(p);
      if fi.Err? {
        if fi.error == NotExist {
          LeafSubtree(tree, p);
          return None;
        }
        return Some(fi.error);
      }
      if fi.value == Dir {
        var entries := ReadDir(p);
        if entries.Err? {
          return Some(entries.error);
        }
        var names := entries.value;
        ListedNone(tree0, p);
        assert names[..0] == [];
        for i := 0 to |names|
          invariant WellFormed(tree) && tree == tree0 - Listed(tree0, p, names[..i]) && faults == old(faults)
        {
          SubtreeShrinks(tree0, tree, p, names[i]);
          ListedNext(tree0, p, names, i);
          var childErr := RemoveAll(p + [names[i]]);
          if childErr.Some? {
            ListedIsBelow(tree0, tree, p, names[..i], names[i]);
            return childErr;
          }
        }
        assert names[..|names|] == names;
        DirectoryEmptied(tree0, p, names);
        PrunedWellFormed(tree0, p);
        err := RemoveDirectory(p);
        return;
      }
      LeafSubtree(tree, p);
      PrunedWellFormed(tree, p);
      err := Remove(p);
    }
  }
}
