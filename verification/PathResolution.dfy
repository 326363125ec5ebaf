/**
 Pathname resolution below one directory, step by step (section 4.13 of POSIX.1-2017 Base Definitions):
 the meaning that `source_aliases` (release_prepare.py) is held to.
 */
module PathResolution {
  // Files and directories are numbered, so that `..` is the directory that a directory lies in and not
  // the removal of a name.

  import opened Prelude

  type Name = string

  /** A piece of a pathname: `..`, an empty piece or `.`, or a name. */
  datatype Piece = Up | Here | Named(name: Name)

  datatype Node =
    | Folder(entries: map<Name, nat>, parent: nat)
    | Plain
    | Link(absolute: bool, target: seq<Piece>)

  type Nodes = map<nat, Node>

  predicate IsFolder(fs: Nodes, d: nat) {
    d in fs && fs[d].Folder?
  }

  /** A directory tree below `top`: no directory has two names, and each knows where it lies. */
  ghost predicate Tree(fs: Nodes, top: nat) {
    && IsFolder(fs, top)
    && (forall d, n :: IsFolder(fs, d) && n in fs[d].entries ==> fs[d].entries[n] in fs)
    && (forall d, n :: IsFolder(fs, d) && n in fs[d].entries && IsFolder(fs, fs[d].entries[n]) ==>
                         Child(fs, top, d, fs[d].entries[n]))
    && (forall d, m, n :: IsFolder(fs, d) && m in fs[d].entries && n in fs[d].entries && m != n
                          && IsFolder(fs, fs[d].entries[n])
          ==> fs[d].entries[m] != fs[d].entries[n])
  }

  ghost predicate Child(fs: Nodes, top: nat, d: nat, c: nat)
    requires IsFolder(fs, c)
  {
    fs[c].parent == d && c != top
  }

  /** How far a resolution has come; `crossed` lists the directory entries of the links followed. */
  datatype Walk =
    | Walking(dir: nat, pending: seq<Piece>, crossed: seq<(nat, Name)>)
    | Arrived(node: nat, crossed: seq<(nat, Name)>)
    | Gone // no such entry, not a directory, or outside of `top`

  ghost function Step(fs: Nodes, top: nat, w: Walk): Walk {
    match w
    case Arrived(_, _) => w
    case Gone => Gone
    case Walking(dir, pending, crossed) =>
      if !IsFolder(fs, dir) then Gone
      else if pending == [] then Arrived(dir, crossed)
      else
        var rest := pending[1..];
        match pending[0]
        case Here => Walking(dir, rest, crossed)
        case Up => if dir == top then Gone else Walking(fs[dir].parent, rest, crossed)
        case Named(n) => Enter(fs, dir, n, rest, crossed)
  }

  ghost function Enter(fs: Nodes, dir: nat, n: Name, rest: seq<Piece>, crossed: seq<(nat, Name)>): Walk
    requires IsFolder(fs, dir)
  {
    if n !in fs[dir].entries || fs[dir].entries[n] !in fs then Gone
    else
      var c := fs[dir].entries[n];
      match fs[c]
      case Folder(_, _) => Walking(c, rest, crossed)
      case Plain => if rest == [] then Arrived(c, crossed) else Gone
      case Link(absolute, target) => if absolute then Gone else Walking(dir, target + rest, crossed + [(dir, n)])
  }

  ghost function Run(fs: Nodes, top: nat, w: Walk, n: nat): Walk {
    if n == 0 then w else Step(fs, top, Run(fs, top, w, n - 1))
  }

  lemma {:induction false} RunOn(fs: Nodes, top: nat, w: Walk, m: nat, n: nat)
    ensures Run(fs, top, w, m + n) == Run(fs, top, Run(fs, top, w, m), n)
    decreases n
  {
    if n > 0 { RunOn(fs, top, w, m, n - 1); }
  }

  /** What has ended stays as it is. */
  lemma {:induction false} Ended(fs: Nodes, top: nat, w: Walk, n: nat)
    requires !w.Walking?
    ensures Run(fs, top, w, n) == w
    decreases n
  {
    if n > 0 { Ended(fs, top, w, n - 1); }
  }

  function Crossed(w: Walk): seq<(nat, Name)> {
    if w.Gone? then [] else w.crossed
  }

  lemma {:induction false} CrossedGrows(fs: Nodes, top: nat, w: Walk, n: nat)
    ensures var r := Run(fs, top, w, n); r.Gone? || Crossed(w) <= Crossed(r)
    decreases n
  {
    if n > 0 { CrossedGrows(fs, top, w, n - 1); }
  }

  /** `PurePosixPath.parts`: empty pieces and `.` disappear. */
  function Parts(pieces: seq<Piece>): (r: seq<Piece>)
    ensures Here !in r
  {
    if pieces == [] then []
    else if pieces[0] == Here then Parts(pieces[1..])
    else [pieces[0]] + Parts(pieces[1..])
  }

  ghost predicate IsFile(fs: Nodes, file: nat) {
    file in fs && fs[file].Plain?
  }

  /** The resolution ends at the regular file `file` below `top`, following no link twice. */
  ghost predicate ResolvesOnce(fs: Nodes, top: nat, path: seq<Piece>, file: nat) {
    IsFile(fs, file) && exists n: nat :: EndsAt(Run(fs, top, Walking(top, path, []), n), file)
  }

  ghost predicate EndsAt(w: Walk, file: nat) {
    w.Arrived? && w.node == file && Distinct(w.crossed)
  }

  /**
   The resolution comes to the directory that holds `file`, following no link twice, with only the
   file's name to go, and possibly empty pieces or `.` after it.
   */
  ghost predicate Reaches(fs: Nodes, top: nat, path: seq<Piece>, file: nat) {
    exists n: nat :: LastName(fs, Run(fs, top, Walking(top, path, []), n), file)
  }

  ghost predicate LastName(fs: Nodes, w: Walk, file: nat) {
    && w.Walking?
    && NamesFile(fs, w.dir, w.pending, file)
    && Parts(w.pending[1..]) == []
    && Distinct(w.crossed)
  }

  ghost predicate NamesFile(fs: Nodes, dir: nat, pending: seq<Piece>, file: nat) {
    && IsFolder(fs, dir)
    && pending != [] && pending[0].Named?
    && pending[0].name in fs[dir].entries && fs[dir].entries[pending[0].name] == file
    && IsFile(fs, file)
  }

  /** A resolution that ends at a file has had that file's name as its last piece. */
  lemma {:induction false} ResolvesIsReaches(fs: Nodes, top: nat, path: seq<Piece>, file: nat, n: nat)
    requires IsFile(fs, file) && EndsAt(Run(fs, top, Walking(top, path, []), n), file)
    ensures Reaches(fs, top, path, file)
    decreases n
  {
    var w := Run(fs, top, Walking(top, path, []), n - 1);
    if w.Walking? {
      assert LastName(fs, w, file);
    } else {
      ResolvesIsReaches(fs, top, path, file, n - 1);
    }
  }

  predicate EndsTidy(pieces: seq<Piece>) {
    pieces == [] || pieces[|pieces|-1] != Here
  }

  /** If a link is met as the last piece, its target does not end with a slash or with `.`. */
  ghost predicate TidyStep(fs: Nodes, w: Walk) {
    w.Walking? && IsFolder(fs, w.dir) && |w.pending| == 1 && w.pending[0].Named? ==>
      var n := w.pending[0].name;
      n in fs[w.dir].entries && fs[w.dir].entries[n] in fs && fs[fs[w.dir].entries[n]].Link? ==>
        EndsTidy(fs[fs[w.dir].entries[n]].target)
  }

  /** So it is for every link that the first `n` steps meet as the last piece. */
  ghost predicate TidyTo(fs: Nodes, top: nat, path: seq<Piece>, n: nat) {
    forall k: nat :: k < n ==> TidyStep(fs, Run(fs, top, Walking(top, path, []), k))
  }

  lemma TidyNext(fs: Nodes, top: nat, w: Walk)
    requires w.Walking? && Step(fs, top, w).Walking? && Step(fs, top, w).pending != []
    ensures w.pending != []
    ensures EndsTidy(Step(fs, top, w).pending) <==> EndsTidy(w.pending) && TidyStep(fs, w)
  {
  }

  /** What is still pending ends tidily exactly if all those links do. */
  lemma {:induction false} TidyRuns(fs: Nodes, top: nat, path: seq<Piece>, n: nat)
    requires EndsTidy(path)
    requires var w := Run(fs, top, Walking(top, path, []), n); w.Walking? && w.pending != []
    ensures EndsTidy(Run(fs, top, Walking(top, path, []), n).pending) <==> TidyTo(fs, top, path, n)
    decreases n
  {
    if n > 0 {
      var before := Run(fs, top, Walking(top, path, []), n - 1);
      TidyNext(fs, top, before);
      TidyRuns(fs, top, path, n - 1);
      assert TidyTo(fs, top, path, n) <==> TidyTo(fs, top, path, n - 1) && TidyStep(fs, before);
    }
  }

  lemma {:induction false} TidyNothing(pieces: seq<Piece>)
    requires EndsTidy(pieces) && Parts(pieces) == []
    ensures pieces == []
    decreases |pieces|
  {
    if pieces != [] { TidyNothing(pieces[1..]); }
  }

  /**
   A file whose name is reached is what the path resolves to exactly if every link met as the last piece ends
   tidily.
   */
  lemma ReachesResolvesIff(fs: Nodes, top: nat, path: seq<Piece>, file: nat, n: nat)
    requires EndsTidy(path) && LastName(fs, Run(fs, top, Walking(top, path, []), n), file)
    ensures ResolvesOnce(fs, top, path, file) <==> TidyTo(fs, top, path, n)
  {
    var start := Walking(top, path, []);
    var w := Run(fs, top, start, n);
    TidyRuns(fs, top, path, n);
    if EndsTidy(w.pending) {
      TidyNothing(w.pending[1..]);
      assert EndsAt(Run(fs, top, start, n + 1), file);
    } else {
      assert w.pending[1..] != [];
      GoneForGood(fs, top, path, n + 1, file);
    }
  }

  lemma GoneForGood(fs: Nodes, top: nat, path: seq<Piece>, n: nat, file: nat)
    requires n > 0 && Run(fs, top, Walking(top, path, []), n - 1).Walking?
             && Run(fs, top, Walking(top, path, []), n).Gone?
    ensures !ResolvesOnce(fs, top, path, file)
  {
    var start := Walking(top, path, []);
    forall m: nat ensures !Run(fs, top, start, m).Arrived? {
      if m < n && Run(fs, top, start, m).Arrived? {
        RunOn(fs, top, start, m, n - 1 - m);
        Ended(fs, top, Run(fs, top, start, m), n - 1 - m);
      } else if m >= n {
        RunOn(fs, top, start, n, m - n);
        Ended(fs, top, Gone, m - n);
      }
    }
  }

  // --- Links followed twice -----------------------------------------------------------------

  /** A resolution that has followed a link twice has not come to a last name before, and never will. */
  lemma RepeatedNeverReaches(fs: Nodes, top: nat, path: seq<Piece>, n: nat, file: nat)
    requires var w := Run(fs, top, Walking(top, path, []), n); !w.Gone? && !Distinct(Crossed(w))
    ensures !Reaches(fs, top, path, file)
  {
    var start := Walking(top, path, []);
    forall m: nat ensures !LastName(fs, Run(fs, top, start, m), file) {
      if m >= n {
        StillRepeats(fs, top, start, n, m);
      } else if LastName(fs, Run(fs, top, start, m), file) {
        AfterLast(fs, top, start, m, n, file);
      }
    }
  }

  lemma StillRepeats(fs: Nodes, top: nat, start: Walk, n: nat, m: nat)
    requires n <= m && var w := Run(fs, top, start, n); !w.Gone? && !Distinct(Crossed(w))
    ensures !Distinct(Crossed(Run(fs, top, start, m))) || Run(fs, top, start, m).Gone?
  {
    var w := Run(fs, top, start, n);
    RunOn(fs, top, start, n, m - n);
    CrossedGrows(fs, top, w, m - n);
    var r := Run(fs, top, w, m - n);
    if !r.Gone? { PrefixRepeats(Crossed(w), Crossed(r)); }
  }

  /** After a last name the resolution has ended, with the same links followed. */
  lemma AfterLast(fs: Nodes, top: nat, start: Walk, n: nat, k: nat, file: nat)
    requires n < k && LastName(fs, Run(fs, top, start, n), file)
    ensures var w := Run(fs, top, start, k); w.Gone? || (w.Arrived? && Distinct(Crossed(w)))
  {
    var next := Run(fs, top, start, n + 1);
    RunOn(fs, top, start, n + 1, k - n - 1);
    Ended(fs, top, next, k - n - 1);
  }

  /** The step on which a resolution arrives at a file takes that file's name as the last piece. */
  lemma {:induction false} ArrivesBy(fs: Nodes, top: nat, path: seq<Piece>, file: nat, crossed: seq<(nat, Name)>,
                                     n: nat)
    returns (m: nat)
    requires IsFile(fs, file) && Run(fs, top, Walking(top, path, []), n) == Arrived(file, crossed)
    ensures m < n && Run(fs, top, Walking(top, path, []), m + 1) == Arrived(file, crossed)
    ensures var w := Run(fs, top, Walking(top, path, []), m);
            w.Walking? && NamesFile(fs, w.dir, w.pending, file) && w.pending[1..] == [] && w.crossed == crossed
    decreases n
  {
    var w := Run(fs, top, Walking(top, path, []), n - 1);
    if w.Walking? {
      m := n - 1;
    } else {
      m := ArrivesBy(fs, top, path, file, crossed, n - 1);
    }
  }

  /**
   A last name is reached on the way to a file exactly on the step that arrives there, and if no link was
   followed twice.
   */
  lemma LastNameOnTheWay(fs: Nodes, top: nat, path: seq<Piece>, file: nat, crossed: seq<(nat, Name)>, m: nat,
                         other: nat, k: nat)
    requires var w := Run(fs, top, Walking(top, path, []), m); w.Walking? && w.crossed == crossed
    requires Run(fs, top, Walking(top, path, []), m + 1) == Arrived(file, crossed)
    requires LastName(fs, Run(fs, top, Walking(top, path, []), k), other)
    ensures k == m && Distinct(crossed)
  {
    var start := Walking(top, path, []);
    if k < m {
      AfterLast(fs, top, start, k, m, other);
    } else if k > m {
      RunOn(fs, top, start, m + 1, k - m - 1);
      Ended(fs, top, Run(fs, top, start, m + 1), k - m - 1);
    }
  }

  /** A resolution that is still under way at some step, and cannot end well from there, never does. */
  lemma NeverEnds(fs: Nodes, top: nat, path: seq<Piece>, k: nat, file: nat)
    requires var w := Run(fs, top, Walking(top, path, []), k); w.Walking? && Hopeless(fs, top, w)
    ensures !Reaches(fs, top, path, file)
  {
    var start := Walking(top, path, []);
    forall n: nat ensures !LastName(fs, Run(fs, top, start, n), file) {
      if n < k && LastName(fs, Run(fs, top, start, n), file) { AfterLast(fs, top, start, n, k, file); }
      if n > k { NotAnymore(fs, top, start, n, k, file); }
    }
  }

  lemma NotAnymore(fs: Nodes, top: nat, start: Walk, n: nat, k: nat, file: nat)
    requires n > k && Hopeless(fs, top, Run(fs, top, start, k))
    ensures !LastName(fs, Run(fs, top, start, n), file)
  {
    RunOn(fs, top, start, k + 1, n - k - 1);
    HopelessStays(fs, top, Run(fs, top, start, k), n - k - 1, file);
  }

  /** The next step leads nowhere, to a directory at the path's end, or to a link already followed. */
  ghost predicate Hopeless(fs: Nodes, top: nat, w: Walk) {
    var next := Step(fs, top, w);
    && (next.Gone? || next.Arrived? || !Distinct(Crossed(next)))
    && forall file :: !LastName(fs, w, file)
  }

  lemma HopelessStays(fs: Nodes, top: nat, w: Walk, n: nat, file: nat)
    requires Hopeless(fs, top, w)
    ensures !LastName(fs, Run(fs, top, Step(fs, top, w), n), file)
  {
    var next := Step(fs, top, w);
    if !next.Walking? {
      Ended(fs, top, next, n);
    } else {
      CrossedGrows(fs, top, next, n);
      var r := Run(fs, top, next, n);
      if r.Walking? { PrefixRepeats(Crossed(next), Crossed(r)); }
    }
  }

  lemma PrefixRepeats<T>(s: seq<T>, t: seq<T>)
    requires s <= t && !Distinct(s)
    ensures !Distinct(t)
  {
    var i, j :| 0 <= i < j < |s| && s[i] == s[j];
    assert t[i] == t[j];
  }

  // --- Paths without links -----------------------------------------------------------------

  /** What a path of names leads to when every piece before the last is a directory itself. */
  function At(fs: Nodes, top: nat, path: seq<Name>): Option<nat> {
    if path == [] then Some(top)
    else
      match At(fs, top, path[..|path|-1])
      case None => None
      case Some(d) =>
        var n := path[|path|-1];
        if IsFolder(fs, d) && n in fs[d].entries then Some(fs[d].entries[n]) else None
  }

  lemma AtIsChild(fs: Nodes, top: nat, p: seq<Name>)
    requires Tree(fs, top) && p != [] && At(fs, top, p).Some? && IsFolder(fs, At(fs, top, p).value)
    ensures At(fs, top, p[..|p|-1]).Some? && Child(fs, top, At(fs, top, p[..|p|-1]).value, At(fs, top, p).value)
  {
  }

  lemma {:induction false} AtFolderInjective(fs: Nodes, top: nat, p: seq<Name>, q: seq<Name>)
    requires Tree(fs, top)
    requires At(fs, top, p).Some? && At(fs, top, p) == At(fs, top, q) && IsFolder(fs, At(fs, top, p).value)
    ensures p == q
    decreases |p|
  {
    if p != [] { AtIsChild(fs, top, p); }
    if q != [] { AtIsChild(fs, top, q); }
    if p != [] && q != [] {
      AtFolderInjective(fs, top, p[..|p|-1], q[..|q|-1]);
      assert p == p[..|p|-1] + [p[|p|-1]] && q == q[..|q|-1] + [q[|q|-1]];
    }
  }

  lemma AtAppend(fs: Nodes, top: nat, p: seq<Name>, n: Name)
    ensures At(fs, top, p + [n]) ==
      match At(fs, top, p)
      case None => None
      case Some(d) => if IsFolder(fs, d) && n in fs[d].entries then Some(fs[d].entries[n]) else None
  {
    assert (p + [n])[..|p|] == p;
  }
}
