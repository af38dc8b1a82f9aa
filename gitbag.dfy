/**
 * The file selection of create_gitbag_sample.py: `get_directory_contents`
 * joins every file name of a directory walk to the directory it was found
 * in and keeps the paths in which the text `.git` does not occur; the main
 * block stages either the four BagIt tag and manifest files (a light
 * GitBag) or that path list (a full GitBag) for the initial commit.
 *
 * The walk itself is an input: one `WalkStep` per directory `os.walk`
 * yields, in the order it yields them.
 */
module GitBag {
  import opened Strings

  /** One `(root_dir, sub_folders, files)` triple of `os.walk`; the sub-folder names are not used. */
  datatype WalkStep = WalkStep(root: string, files: seq<string>)

  /** The text searched for by `re.search(r"\.git", path_to_file)`. */
  const GitMarker := ".git"

  /** The tag and manifest files a light GitBag commits (RFC 8493 sections 2.2.2, 2.1.1, 2.1.3 and 2.2.1). */
  const LightBagFiles := ["bag-info.txt", "bagit.txt", "manifest-md5.txt", "tagmanifest-md5.txt"]

  const InitialCommitMessage := "Initial commit."

  predicate IsAbsolute(name: string)
  {
    |name| > 0 && name[0] == '/'
  }

  /**
   * `os.path.join(a, b)` on POSIX: an absolute `b` replaces `a`; otherwise
   * `b` is appended, after a `/` unless `a` is empty or already ends in one.
   */
  function PathJoin(a: string, b: string): string
  {
    if IsAbsolute(b) then b
    else if a == "" || a[|a| - 1] == '/' then a + b
    else a + "/" + b
  }

  /**
   * The name always ends the joined path; a relative name follows the
   * directory, with exactly one `/` between them unless the directory is empty.
   */
  lemma PathJoinShape(a: string, b: string)
    ensures var r := PathJoin(a, b);
      |b| <= |r| && r[|r| - |b|..] == b &&
      (IsAbsolute(b) ==> r == b) &&
      (!IsAbsolute(b) ==> |a| + |b| <= |r| <= |a| + 1 + |b| && r[..|a|] == a) &&
      (!IsAbsolute(b) && a == "" ==> r == b) &&
      (!IsAbsolute(b) && a != "" ==> r[|r| - |b| - 1] == '/') &&
      (!IsAbsolute(b) && a != "" && a[|a| - 1] == '/' ==> |r| == |a| + |b|) &&
      (!IsAbsolute(b) && a != "" && a[|a| - 1] != '/' ==> |r| == |a| + 1 + |b|)
  {
  }

  /** A marker in the name, or in the directory of a relative name, is in the joined path. */
  lemma PathJoinContains(a: string, b: string, sub: string)
    requires Contains(b, sub) || (Contains(a, sub) && !IsAbsolute(b))
    ensures Contains(PathJoin(a, b), sub)
  {
    var r := PathJoin(a, b);
    PathJoinShape(a, b);
    if Contains(b, sub) {
      assert r == r[..|r| - |b|] + b + "";
      ContainsInfix(r[..|r| - |b|], b, "", sub);
    } else {
      assert r == "" + a + r[|a|..];
      ContainsInfix("", a, r[|a|..], sub);
    }
  }

  /** The paths of the files of one directory, in the order the walk lists them. */
  function Joined(root: string, names: seq<string>): (r: seq<string>)
    ensures |r| == |names|
  {
    seq(|names|, j requires 0 <= j < |names| => PathJoin(root, names[j]))
  }

  /** Every joined path of the walk: directory by directory, then file by file. */
  function Walked(walk: seq<WalkStep>): seq<string>
    decreases |walk|
  {
    if walk == [] then []
    else
      var n := |walk| - 1;
      Walked(walk[..n]) + Joined(walk[n].root, walk[n].files)
  }

  /** The paths in which `.git` does not occur, in their original order. */
  function Kept(paths: seq<string>): seq<string>
    decreases |paths|
  {
    if paths == [] then []
    else
      var n := |paths| - 1;
      Kept(paths[..n]) + (if Contains(paths[n], GitMarker) then [] else [paths[n]])
  }

  /** The list `get_directory_contents` returns for a walk. */
  function DirectoryContents(walk: seq<WalkStep>): seq<string>
  {
    Kept(Walked(walk))
  }

  lemma JoinedSnoc(root: string, names: seq<string>, j: nat)
    requires j < |names|
    ensures Joined(root, names[..j + 1]) == Joined(root, names[..j]) + [PathJoin(root, names[j])]
  {
  }

  lemma WalkedSnoc(walk: seq<WalkStep>, i: nat)
    requires i < |walk|
    ensures Walked(walk[..i + 1]) == Walked(walk[..i]) + Joined(walk[i].root, walk[i].files)
  {
    assert walk[..i + 1][..i] == walk[..i];
  }

  lemma KeptSnoc(paths: seq<string>, p: string)
    ensures Kept(paths + [p]) == Kept(paths) + (if Contains(p, GitMarker) then [] else [p])
  {
    assert (paths + [p])[..|paths|] == paths;
  }

  /** `get_directory_contents`: the nested loops over the walk and each directory's files. */
  method GetDirectoryContents(walk: seq<WalkStep>) returns (filePathList: seq<string>)
    ensures filePathList == DirectoryContents(walk)
  {
    filePathList := [];
    for i := 0 to |walk|
      invariant filePathList == Kept(Walked(walk[..i]))
    {
      var rootDir, files := walk[i].root, walk[i].files;
      ghost var walked := Walked(walk[..i]);
      assert walked + Joined(rootDir, files[..0]) == walked;
      for j := 0 to |files|
        invariant filePathList == Kept(walked + Joined(rootDir, files[..j]))
      {
        var pathToFile := PathJoin(rootDir, files[j]);
        assert Kept(walked + Joined(rootDir, files[..j + 1])) ==
          filePathList + (if Contains(pathToFile, GitMarker) then [] else [pathToFile]) by {
          JoinedSnoc(rootDir, files, j);
          assert walked + Joined(rootDir, files[..j + 1]) == (walked + Joined(rootDir, files[..j])) + [pathToFile];
          KeptSnoc(walked + Joined(rootDir, files[..j]), pathToFile);
        }
        if !Contains(pathToFile, GitMarker) {
          filePathList := filePathList + [pathToFile];
        }
      }
      assert filePathList == Kept(Walked(walk[..i + 1])) by {
        assert files[..|files|] == files;
        WalkedSnoc(walk, i);
      }
    }
    assert walk[..|walk|] == walk;
  }

  /** Filtering distributes over concatenation. */
  lemma {:induction false} KeptConcat(a: seq<string>, b: seq<string>)
    ensures Kept(a + b) == Kept(a) + Kept(b)
    decreases |b|
  {
    if b == [] {
      assert a + b == a;
    } else {
      var n := |b| - 1;
      assert (a + b)[..|a + b| - 1] == a + b[..n];
      KeptConcat(a, b[..n]);
    }
  }

  /** A path is kept exactly when it was walked and `.git` does not occur in it. */
  lemma {:induction false} KeptMembers(paths: seq<string>)
    ensures forall p :: p in Kept(paths) <==> p in paths && !Contains(p, GitMarker)
    decreases |paths|
  {
    if paths != [] {
      var n := |paths| - 1;
      KeptMembers(paths[..n]);
      assert paths == paths[..n] + [paths[n]];
    }
  }

  /** `idx` places each element of `xs` at a position of `ys`, in increasing positions. */
  ghost predicate Embeds(idx: seq<nat>, xs: seq<string>, ys: seq<string>)
  {
    |idx| == |xs| &&
    (forall k :: 0 <= k < |idx| ==> idx[k] < |ys| && xs[k] == ys[idx[k]]) &&
    (forall k, l :: 0 <= k < l < |idx| ==> idx[k] < idx[l])
  }

  lemma EmbedsSnoc(idx: seq<nat>, xs: seq<string>, ys: seq<string>, y: string)
    requires Embeds(idx, xs, ys)
    ensures Embeds(idx, xs, ys + [y])
    ensures Embeds(idx + [|ys|], xs + [y], ys + [y])
  {
    var idx', xs', ys' := idx + [|ys|], xs + [y], ys + [y];
    forall k | 0 <= k < |idx'| ensures idx'[k] < |ys'| && xs'[k] == ys'[idx'[k]] {
      if k < |idx| {
        assert idx'[k] == idx[k] && xs'[k] == xs[k] && ys'[idx[k]] == ys[idx[k]];
      }
    }
  }

  /** The positions of the kept paths among all walked paths. */
  function KeptPositions(paths: seq<string>): seq<nat>
    decreases |paths|
  {
    if paths == [] then []
    else
      var n := |paths| - 1;
      KeptPositions(paths[..n]) + (if Contains(paths[n], GitMarker) then [] else [n])
  }

  /** The kept paths appear in walk order, and there are never more of them than walked paths. */
  lemma {:induction false} KeptOrder(paths: seq<string>)
    ensures Embeds(KeptPositions(paths), Kept(paths), paths)
    ensures |Kept(paths)| <= |paths|
    decreases |paths|
  {
    if paths != [] {
      var n := |paths| - 1;
      KeptOrder(paths[..n]);
      assert paths == paths[..n] + [paths[n]];
      EmbedsSnoc(KeptPositions(paths[..n]), Kept(paths[..n]), paths[..n], paths[n]);
    }
  }

  /** The last step of a non-empty walk contributes its joined paths last. */
  lemma WalkedLast(walk: seq<WalkStep>)
    requires walk != []
    ensures var n := |walk| - 1; Walked(walk) == Walked(walk[..n]) + Joined(walk[n].root, walk[n].files)
  {
  }

  /** Walking one walk after another walks the paths of the first, then those of the second. */
  lemma {:induction false} WalkedConcat(w1: seq<WalkStep>, w2: seq<WalkStep>)
    ensures Walked(w1 + w2) == Walked(w1) + Walked(w2)
    decreases |w2|
  {
    if w2 == [] {
      assert w1 + w2 == w1;
    } else {
      var w, n := w1 + w2, |w2| - 1;
      assert w[..|w| - 1] == w1 + w2[..n] && w[|w| - 1] == w2[n];
      var last := Joined(w2[n].root, w2[n].files);
      WalkedConcat(w1, w2[..n]);
      WalkedLast(w);
      WalkedLast(w2);
      assert Walked(w) == (Walked(w1) + Walked(w2[..n])) + last;
      assert Walked(w2) == Walked(w2[..n]) + last;
    }
  }

  /** The walked paths are exactly the joins of a directory with one of its file names. */
  lemma {:induction false} WalkedMembers(walk: seq<WalkStep>)
    ensures forall p :: p in Walked(walk) <==>
      exists i, j :: 0 <= i < |walk| && 0 <= j < |walk[i].files| && p == PathJoin(walk[i].root, walk[i].files[j])
    decreases |walk|
  {
    if walk != [] {
      var n := |walk| - 1;
      WalkedMembers(walk[..n]);
      var last := Joined(walk[n].root, walk[n].files);
      forall p | p in Walked(walk)
        ensures exists i, j :: 0 <= i < |walk| && 0 <= j < |walk[i].files| && p == PathJoin(walk[i].root, walk[i].files[j])
      {
        if p in Walked(walk[..n]) {
          var i, j :| 0 <= i < n && 0 <= j < |walk[..n][i].files| && p == PathJoin(walk[..n][i].root, walk[..n][i].files[j]);
          assert walk[..n][i] == walk[i];
        } else {
          var j :| 0 <= j < |last| && last[j] == p;
          assert p == PathJoin(walk[n].root, walk[n].files[j]);
        }
      }
      forall i, j | 0 <= i < |walk| && 0 <= j < |walk[i].files|
        ensures PathJoin(walk[i].root, walk[i].files[j]) in Walked(walk)
      {
        if i < n {
          assert walk[..n][i] == walk[i];
          assert PathJoin(walk[..n][i].root, walk[..n][i].files[j]) in Walked(walk[..n]);
        } else {
          assert last[j] == PathJoin(walk[i].root, walk[i].files[j]);
        }
      }
    }
  }

  /** The number of file names the walk reports. */
  function TotalFiles(walk: seq<WalkStep>): nat
    decreases |walk|
  {
    if walk == [] then 0 else TotalFiles(walk[..|walk| - 1]) + |walk[|walk| - 1].files|
  }

  lemma {:induction false} WalkedLength(walk: seq<WalkStep>)
    ensures |Walked(walk)| == TotalFiles(walk)
    decreases |walk|
  {
    if walk != [] {
      WalkedLength(walk[..|walk| - 1]);
    }
  }

  /**
   * Soundness: every returned path lacks `.git` and is the join of a walked
   * directory with one of its file names.
   */
  lemma DirectoryContentsSound(walk: seq<WalkStep>)
    ensures forall p :: p in DirectoryContents(walk) ==> (!Contains(p, GitMarker) &&
      exists i, j :: 0 <= i < |walk| && 0 <= j < |walk[i].files| && p == PathJoin(walk[i].root, walk[i].files[j]))
  {
    KeptMembers(Walked(walk));
    WalkedMembers(walk);
  }

  /** Completeness: every walked join without `.git` is returned. */
  lemma DirectoryContentsComplete(walk: seq<WalkStep>)
    ensures forall i, j :: 0 <= i < |walk| && 0 <= j < |walk[i].files| && !Contains(PathJoin(walk[i].root, walk[i].files[j]), GitMarker) ==>
      PathJoin(walk[i].root, walk[i].files[j]) in DirectoryContents(walk)
  {
    KeptMembers(Walked(walk));
    WalkedMembers(walk);
  }

  /**
   * Order and length: the result lists each directory's kept paths after
   * those of the directories walked before it, each directory in its own
   * file order, and is never longer than the number of walked files.
   */
  lemma DirectoryContentsOrder(w1: seq<WalkStep>, w2: seq<WalkStep>)
    ensures DirectoryContents(w1 + w2) == DirectoryContents(w1) + DirectoryContents(w2)
    ensures |DirectoryContents(w1 + w2)| <= TotalFiles(w1 + w2)
    ensures Embeds(KeptPositions(Walked(w1 + w2)), DirectoryContents(w1 + w2), Walked(w1 + w2))
  {
    WalkedConcat(w1, w2);
    KeptConcat(Walked(w1), Walked(w2));
    KeptOrder(Walked(w1 + w2));
    WalkedLength(w1 + w2);
  }

  /**
   * The filter matches `.git` anywhere: a file whose name holds it (such as
   * `.gitignore`) is dropped, and so is every relative name under a
   * directory whose path holds it.
   */
  lemma GitNamesDropped(walk: seq<WalkStep>, i: nat, j: nat)
    requires i < |walk| && j < |walk[i].files|
    requires Contains(walk[i].files[j], GitMarker) || (Contains(walk[i].root, GitMarker) && !IsAbsolute(walk[i].files[j]))
    ensures PathJoin(walk[i].root, walk[i].files[j]) !in DirectoryContents(walk)
  {
    PathJoinContains(walk[i].root, walk[i].files[j], GitMarker);
    KeptMembers(Walked(walk));
  }

  /**
   * The main block's choice of what to stage before committing: the four
   * tag and manifest files for a light GitBag, otherwise every path
   * `get_directory_contents` returns for the bag directory's walk.
   */
  method StageInitialCommit(light: bool, walk: seq<WalkStep>) returns (staged: seq<string>, message: string)
    ensures light ==> staged == LightBagFiles
    ensures !light ==> staged == DirectoryContents(walk)
    ensures message == InitialCommitMessage
  {
    if light {
      staged := LightBagFiles;
    } else {
      staged := GetDirectoryContents(walk);
    }
    message := InitialCommitMessage;
  }
}
