/**
 * `make_commit` (src/git_util.rs) over an abstract repository: an index
 * mapping paths to staged contents and a history of commits, the last of
 * which is HEAD. A tree is identified by its contents, so two trees have the
 * same id exactly when they stage the same files.
 */
module GitUtil {
  import opened Wrappers
  import opened FileSystems

  type Tree = map<Path, Bytes>

  /** A commit: its tree, the positions of its parents in the history, its message. */
  datatype Commit = Commit(tree: Tree, parents: seq<nat>, message: string)

  class Repository {
    var index: Tree
    var commits: seq<Commit>

    /** A repository with a history; an empty history is an unborn branch. */
    constructor(index: Tree, commits: seq<Commit>)
      ensures this.index == index && this.commits == commits
    {
      this.index := index;
      this.commits := commits;
    }

    function Head(): Commit
      reads this
      requires commits != []
    {
      commits[|commits| - 1]
    }

    /**
     * `make_commit`: stages the working-tree file at `root + path`, and
     * commits the new tree on HEAD unless it equals HEAD's tree. The failures
     * of git's own I/O (writing the index, writing the commit) are not
     * determined by the model.
     */
    method MakeCommit(fs: FileSystem, root: Path, path: Path, message: string) returns (r: Result<()>)
      modifies this
      // `repo.head()?` is the first step: an unborn branch is an error and nothing is staged.
      ensures old(commits) == [] ==> r.Err? && index == old(index) && commits == old(commits)
      // Staging needs the file in the working tree.
      ensures root + path !in fs.files ==> r.Err? && index == old(index) && commits == old(commits)
      // Otherwise the file's content is staged, whatever happens next.
      ensures old(commits) != [] && root + path in fs.files ==> index == old(index)[path := fs.files[root + path]]
      // No commit but the one appended on success.
      ensures r.Err? ==> commits == old(commits)
      ensures r.Ok? ==>
                && old(commits) != []
                && root + path in fs.files
                && (if index == old(commits)[|old(commits)| - 1].tree
                    then commits == old(commits)
                    else commits == old(commits) + [Commit(index, [|old(commits)| - 1], message)])
      // So after a success HEAD's tree holds the file as it is in the working tree.
      ensures r.Ok? ==> commits != [] && path in Head().tree && Head().tree[path] == fs.files[root + path]
    {
      if commits == [] {
        return Err("reference 'refs/heads/master' not found");
      }
      var oldTree := Head().tree;
      if root + path !in fs.files {
        return Err("could not find the file to add to the index");
      }
      index := index[path := fs.files[root + path]];
      var indexWritten: bool :| true;
      if !indexWritten {
        return Err("failed to write the index");
      }
      var newTree := index;
      if newTree == oldTree {
        return Ok(());
      }
      // The second `repo.head()` succeeds, as the first did: the unborn-branch
      // arm is never taken, and HEAD is the parent.
      var parents := [|commits| - 1];
      var committed: bool :| true;
      if !committed {
        return Err("failed to write the commit");
      }
      commits := commits + [Commit(newTree, parents, message)];
      return Ok(());
    }

    /**
     * `make_commit` as lines 21-30 intend it: on an unborn branch the old
     * tree is the empty tree and the first commit has no parent. Elsewhere
     * it behaves as `MakeCommit`.
     */
    method MakeCommitCorrected(fs: FileSystem, root: Path, path: Path, message: string) returns (r: Result<()>)
      modifies this
      ensures root + path !in fs.files ==> r.Err? && index == old(index) && commits == old(commits)
      ensures root + path in fs.files ==> index == old(index)[path := fs.files[root + path]]
      ensures r.Err? ==> commits == old(commits)
      ensures r.Ok? ==>
                && root + path in fs.files
                && (if old(commits) == [] then commits == [Commit(index, [], message)]
                    else if index == old(commits)[|old(commits)| - 1].tree then commits == old(commits)
                    else commits == old(commits) + [Commit(index, [|old(commits)| - 1], message)])
      ensures r.Ok? ==> commits != [] && path in Head().tree && Head().tree[path] == fs.files[root + path]
    {
      var oldTree: Tree := if commits == [] then map[] else Head().tree;
      if root + path !in fs.files {
        return Err("could not find the file to add to the index");
      }
      index := index[path := fs.files[root + path]];
      var indexWritten: bool :| true;
      if !indexWritten {
        return Err("failed to write the index");
      }
      var newTree := index;
      assert path in newTree;
      if newTree == oldTree {
        return Ok(());
      }
      var parents := if commits == [] then [] else [|commits| - 1];
      var committed: bool :| true;
      if !committed {
        return Err("failed to write the commit");
      }
      commits := commits + [Commit(newTree, parents, message)];
      return Ok(());
    }
  }

  /**
   * The first commit of a fresh storage repository (the ".gitignore" commit
   * of `FetchedDataSet::new`) can never be made as written: HEAD is unborn.
   */
  method UnbornBranchRejected() returns (asWritten: Result<()>)
    ensures asWritten.Err?
  {
    var fs := new FileSystem(map[[".gitignore"] := [42, 46, 112, 114, 105, 118, 97, 116, 101, 10, 10]]);
    var repo := new Repository(map[], []);
    asWritten := repo.MakeCommit(fs, [], [".gitignore"], "Add .gitignore");
  }
}
