/** Repository file selection: `RepoSage.fetch_repo_files` in
    repo-sage-action/bot.py. The repository is seen through its directory
    listings, a map from a directory path to the entries the hosting API
    lists for it (the root is the empty path). The method walks a FIFO
    worklist seeded with the root listing; its specification is the
    generation-by-generation reading of that walk (module Worklist). */
module FileSelection {
  import opened Strings
  import opened Worklist

  /** The `type` field of a listed entry; everything that is neither a
      directory nor a file (symlinks, submodules) is `Other`. */
  datatype Kind = Dir | File | Other

  datatype Entry = Entry(kind: Kind, path: string, size: nat)

  /** Directory path -> its listing, in the order the API returns it. */
  type Tree = map<string, seq<Entry>>

  const SupportedExtensions: seq<string> :=
    [".py", ".js", ".java", ".ts", ".jsx", ".tsx", ".html", ".css", ".md", ".yml", ".yaml"]
  const IgnoredDirectories: seq<string> :=
    ["node_modules", "venv", ".git", "__pycache__", "dist", "build"]
  const MaxFileSize: nat := 100 * 1024

  /** An ignored directory name occurs anywhere in the path, as a plain
      substring (so `rebuild.py` and `.github/` are ignored too). */
  predicate Ignored(path: string) {
    exists d | d in IgnoredDirectories :: Contains(path, d)
  }

  /** `path.endswith(SUPPORTED_FILE_EXTENSIONS)` */
  predicate Supported(path: string) {
    exists ext | ext in SupportedExtensions :: EndsWith(path, ext)
  }

  /** The entries the walk hands back. */
  predicate Selected(e: Entry) {
    !Ignored(e.path) && e.kind == File && Supported(e.path) && e.size <= MaxFileSize
  }

  /** `get_contents(path)` on a directory; a path the store does not list
      reads as an empty directory. */
  function Listing(tree: Tree, path: string): seq<Entry> {
    if path in tree then tree[path] else []
  }

  /** What the walk appends to the worklist after taking `e` from its front. */
  function Expand(tree: Tree, e: Entry): seq<Entry> {
    if !Ignored(e.path) && e.kind == Dir then Listing(tree, e.path) else []
  }

  /** Every listed child has a longer path than its directory, as
      `dir/child` does: the listings cannot lead back to themselves. */
  ghost predicate WellFormed(tree: Tree) {
    forall p | p in tree :: ChildrenLonger(tree, p)
  }

  // ---------------------------------------------------------------------------
  // The walk terminates: the entries reachable below an entry weigh less
  // than the entry.

  /** The children of `p` all have longer paths than `p`. */
  ghost predicate ChildrenLonger(tree: Tree, p: string)
    requires p in tree
  {
    forall i | 0 <= i < |tree[p]| :: |tree[p][i].path| > |p|
  }

  ghost function Deeper(tree: Tree, n: nat): set<string> {
    set k | k in tree && |k| >= n
  }

  ghost function Weight(tree: Tree, e: Entry): nat
    decreases Deeper(tree, |e.path|), 0
  {
    if e.kind == Dir && e.path in tree && ChildrenLonger(tree, e.path) then
      assert e.path in Deeper(tree, |e.path|) - Deeper(tree, |e.path| + 1);
      1 + Forest(tree, tree[e.path], |e.path| + 1)
    else 1
  }

  ghost function Forest(tree: Tree, s: seq<Entry>, n: nat): nat
    requires forall i | 0 <= i < |s| :: |s[i].path| >= n
    decreases Deeper(tree, n), 1, |s|
  {
    if s == [] then 0 else Weight(tree, s[0]) + Forest(tree, s[1..], n)
  }

  /** The walk's three parameters for a given tree. */
  ghost function Weights(tree: Tree): Entry -> nat {
    e => Weight(tree, e)
  }

  function Expansion(tree: Tree): Entry -> seq<Entry> {
    e => Expand(tree, e)
  }

  lemma {:induction false} ForestIsTotal(tree: Tree, s: seq<Entry>, n: nat)
    requires forall i | 0 <= i < |s| :: |s[i].path| >= n
    ensures Forest(tree, s, n) == Total(Weights(tree), s)
    decreases |s|
  {
    if s != [] {
      ForestIsTotal(tree, s[1..], n);
    }
  }

  /** On a well-formed tree, expanding an entry makes the worklist lighter. */
  lemma TreeShrinks(tree: Tree)
    requires WellFormed(tree)
    ensures Shrinks(Expansion(tree), Weights(tree))
  {
    forall e: Entry
      ensures Total(Weights(tree), Expansion(tree)(e)) < Weights(tree)(e)
    {
      if !Ignored(e.path) && e.kind == Dir && e.path in tree {
        ForestIsTotal(tree, tree[e.path], |e.path| + 1);
      }
    }
  }

  /** The breadth-first reading of the listings from the worklist `s` on. */
  ghost function Walk(tree: Tree, s: seq<Entry>): seq<Entry>
    requires WellFormed(tree)
  {
    TreeShrinks(tree);
    BreadthFirst(Selected, Expansion(tree), Weights(tree), s)
  }

  /** What `fetch_repo_files` hands back: the walk from the root listing. */
  ghost function Selection(tree: Tree): seq<Entry>
    requires WellFormed(tree)
  {
    Walk(tree, Listing(tree, ""))
  }

  /** One generation of the walk: its selected entries, then the walk
      from the generation after it. */
  lemma WalkGeneration(tree: Tree, s: seq<Entry>)
    requires WellFormed(tree)
    ensures Walk(tree, s) == Keep(Selected, s) + Walk(tree, Next(Expansion(tree), s))
  {
    TreeShrinks(tree);
  }

  /** Taking the front entry off a worklist and appending its expansion
      makes the worklist lighter. */
  lemma WorklistLighter(tree: Tree, w: seq<Entry>)
    requires WellFormed(tree) && w != []
    ensures Total(Weights(tree), w[1..] + Expand(tree, w[0])) < Total(Weights(tree), w)
  {
    TreeShrinks(tree);
    StepLighter(Expansion(tree), Weights(tree), w);
  }

  /** What the walk still hands back when the worklist holds `front`, the
      untaken rest of the current generation, followed by the expansions
      of `back`, its taken part. */
  ghost function Pending(tree: Tree, front: seq<Entry>, back: seq<Entry>): seq<Entry>
    requires WellFormed(tree)
  {
    Keep(Selected, front) + Walk(tree, Next(Expansion(tree), back + front))
  }

  lemma PendingStart(tree: Tree)
    requires WellFormed(tree)
    ensures Pending(tree, Listing(tree, ""), []) == Selection(tree)
  {
    assert [] + Listing(tree, "") == Listing(tree, "");
    WalkGeneration(tree, Listing(tree, ""));
  }

  /** Taking the front entry hands it back if it is selected. */
  lemma PendingTake(tree: Tree, front: seq<Entry>, back: seq<Entry>)
    requires WellFormed(tree) && front != []
    ensures Pending(tree, front, back)
         == (if Selected(front[0]) then [front[0]] else []) + Pending(tree, front[1..], back + [front[0]])
  {
    MoveFront(back, front);
  }

  /** A used-up generation gives way to the next one. */
  lemma PendingNext(tree: Tree, back: seq<Entry>)
    requires WellFormed(tree)
    ensures Pending(tree, [], back) == Pending(tree, Next(Expansion(tree), back), [])
  {
    var next := Next(Expansion(tree), back);
    assert back + [] == back && [] + next == next;
    WalkGeneration(tree, next);
  }

  /** Nothing is pending once the worklist is empty. */
  lemma PendingEnd(tree: Tree, back: seq<Entry>)
    requires WellFormed(tree) && Next(Expansion(tree), back) == []
    ensures Pending(tree, [], back) == []
  {
    assert back + [] == back;
    TreeShrinks(tree);
  }

  /** Everything selected is a supported, small enough file outside the
      ignored directories, found in some generation below the root. */
  lemma SelectionSound(tree: Tree, e: Entry)
    requires WellFormed(tree) && e in Selection(tree)
    ensures e.kind == File && Supported(e.path) && e.size <= MaxFileSize && !Ignored(e.path)
    ensures exists k: nat :: e in Level(Expansion(tree), Listing(tree, ""), k)
  {
    TreeShrinks(tree);
    BreadthFirstSound(Selected, Expansion(tree), Weights(tree), Listing(tree, ""), e);
  }

  /** Every such file in any generation below the root is selected. */
  lemma SelectionComplete(tree: Tree, k: nat, e: Entry)
    requires WellFormed(tree)
    requires e in Level(Expansion(tree), Listing(tree, ""), k)
    requires e.kind == File && Supported(e.path) && e.size <= MaxFileSize && !Ignored(e.path)
    ensures e in Selection(tree)
  {
    TreeShrinks(tree);
    BreadthFirstComplete(Selected, Expansion(tree), Weights(tree), Listing(tree, ""), k, e);
  }

  /** The ignore test is a plain substring test, so a file named
      `rebuild.py` is dropped as if it sat in a `build` directory. */
  lemma RebuildIsDropped(e: Entry)
    requires e.path == "src/rebuild.py"
    ensures Ignored(e.path) && !Selected(e)
  {
    assert IsPrefix("build", e.path[6..]);
    ContainsAt(e.path, "build", 6);
    assert IgnoredDirectories[5] == "build";
  }

  /** An entry below an ignored path is never reached: an ignored directory
      is not expanded. */
  lemma IgnoredNeverExpanded(tree: Tree, e: Entry)
    requires Ignored(e.path)
    ensures Expand(tree, e) == [] && !Selected(e)
  {
  }

  // ---------------------------------------------------------------------------

  /** One turn of the loop in `RepoSage.fetch_repo_files` on the entry it
      has just popped: an ignored path is dropped, a directory's listing is
      appended to the worklist, a supported file within the size limit is
      appended to the result. */
  method Visit(tree: Tree, entry: Entry, contents: seq<Entry>, files: seq<Entry>)
    returns (contents': seq<Entry>, files': seq<Entry>)
    ensures contents' == contents + Expand(tree, entry)
    ensures files' == files + (if Selected(entry) then [entry] else [])
  {
    contents', files' := contents, files;
    if !Ignored(entry.path) {
      if entry.kind == Dir {
        contents' := contents' + Listing(tree, entry.path);
      } else if entry.kind == File {
        if Supported(entry.path) && entry.size <= MaxFileSize {
          files' := files' + [entry];
        }
      }
    }
  }

  /** `RepoSage.fetch_repo_files`: the files of the repository worth
      analysing, in breadth-first listing order. */
  method FetchRepoFiles(tree: Tree) returns (files: seq<Entry>)
    requires WellFormed(tree)
    ensures files == Selection(tree)
    ensures forall i | 0 <= i < |files| ::
      files[i].kind == File && Supported(files[i].path) &&
      files[i].size <= MaxFileSize && !Ignored(files[i].path)
  {
    ghost var exp := Expansion(tree);
    var contents := Listing(tree, "");
    files := [];
    // The worklist holds `front`, the untaken rest of the current
    // generation, then the expansions of `back`, its taken part.
    ghost var front, back := contents, [];
    PendingStart(tree);
    assert Next(exp, back) == [];
    while contents != []
      invariant contents == front + Next(exp, back)
      invariant files + Pending(tree, front, back) == Selection(tree)
      decreases Total(Weights(tree), contents)
    {
      if front == [] {
        // The generation is used up: the worklist is the next generation.
        PendingNext(tree, back);
        assert contents == Next(exp, back);
        front, back := contents, [];
        assert Next(exp, back) == [];
        assert files + Pending(tree, front, back) == Selection(tree);
      }
      var entry := contents[0];
      assert entry == front[0];
      WorklistLighter(tree, contents);
      TakeFront(exp, front, back);
      PendingTake(tree, front, back);
      ghost var handed := if Selected(entry) then [entry] else [];
      ghost var before := files;
      contents, files := Visit(tree, entry, contents[1..], files);
      AppendAssoc(before, handed, Pending(tree, front[1..], back + [entry]));
      assert handed + Pending(tree, front[1..], back + [entry]) == Pending(tree, front, back);
      assert files + Pending(tree, front[1..], back + [entry]) == Selection(tree);
      front, back := front[1..], back + [entry];
    }
    PendingEnd(tree, back);
    forall i | 0 <= i < |files|
      ensures files[i].kind == File && Supported(files[i].path)
      ensures files[i].size <= MaxFileSize && !Ignored(files[i].path)
    {
      SelectionSound(tree, files[i]);
    }
  }
}
