/** What the report of du has lines for, in what order, and with what numbers. */
module DuReport {
  import opened Du

  // The entry at a place within a hierarchy; where there is none, as if it was skipped.
  function Reached(t: Entry, p: Path): Entry
    decreases |p|
  {
    if p == [] then t
    else if t.Dir? && p[0] < |t.entries| then Reached(t.entries[p[0]], p[1..])
    else Skipped
  }

  // Directories behind what is in them, otherwise in order.
  predicate Precedes(p: Path, q: Path)
    decreases |p|
  {
    p != [] && (q == [] || p[0] < q[0] || (p[0] == q[0] && Precedes(p[1..], q[1..])))
  }

  lemma {:induction false} NotBeforeItself(p: Path)
    ensures !Precedes(p, p)
  {
    if p != [] {
      NotBeforeItself(p[1..]);
    }
  }

  lemma NoneTwice(ls: seq<Line>, i: nat, j: nat)
    requires InOrder(ls) && i < j < |ls|
    ensures ls[i].file != ls[j].file
  {
    NotBeforeItself(ls[i].file);
  }

  lemma {:induction false} PrecedesBehind(a: Path, p: Path, q: Path)
    ensures Precedes(a + p, a + q) <==> Precedes(p, q)
  {
    if a == [] {
      assert a + p == p && a + q == q;
    } else {
      assert (a + p)[0] == a[0] == (a + q)[0] && (a + p)[1..] == a[1..] + p && (a + q)[1..] == a[1..] + q;
      PrecedesBehind(a[1..], p, q);
    }
  }

  // The number that -t is compared with.
  function Value(o: Options, e: Entry): nat { if o.inodes then Clip(Due(o, e)).inodes else Clip(Due(o, e)).size }

  /** Directories down to maxDepth are shown, other entries down to there with -a, arguments in any
      case, nothing that is skipped; a positive threshold keeps the values not below it, a negative
      one those not above its absolute value. */
  predicate Visible(o: Options, e: Entry, level: nat) {
    && match e {
         case Skipped => false
         case Dir(_, _) => level <= o.maxDepth || level == 0
         case File(_) => (o.all && level <= o.maxDepth) || level == 0
       }
    && (o.threshold >= 0 ==> o.threshold <= Value(o, e))
    && (o.threshold < 0 ==> Value(o, e) + o.threshold <= 0)
  }

  // The line l is for the entry at p.
  ghost predicate LineFor(o: Options, t: Entry, level: nat, file: Path, l: Line, p: Path) {
    Visible(o, Reached(t, p), level + |p|) && l == Line(file + p, Clip(Due(o, Reached(t, p))))
  }

  ghost predicate IsLine(o: Options, t: Entry, level: nat, file: Path, l: Line) { exists p :: LineFor(o, t, level, file, l, p) }

  ghost predicate IsLineOf(o: Options, ts: seq<Entry>, n: nat, level: nat, dir: Path, l: Line)
    requires n <= |ts|
  {
    exists i :: 0 <= i < n && IsLine(o, ts[i], level, dir + [i], l)
  }

  /** Every line is for an entry that is to be shown. */
  lemma {:induction false} LinesAre(o: Options, t: Entry, level: nat, file: Path, l: Line)
    requires l in Report(o, t, level, file)
    ensures IsLine(o, t, level, file, l)
    decreases t
  {
    hide Clip, Due, Sum, Shown, Value;
    if t.Dir? && l in ReportAll(o, t.entries, |t.entries|, level + 1, file) {
      AllLinesAre(o, t.entries, |t.entries|, level + 1, file, l);
      var i :| 0 <= i < |t.entries| && IsLine(o, t.entries[i], level + 1, file + [i], l);
      var p :| LineFor(o, t.entries[i], level + 1, file + [i], l, p);
      assert ([i] + p)[1..] == p && file + [i] + p == file + ([i] + p);
      assert LineFor(o, t, level, file, l, [i] + p);
    } else {
      OwnLine(o, t, level, file, l);
    }
  }

  lemma OwnLine(o: Options, t: Entry, level: nat, file: Path, l: Line)
    requires !t.Skipped? && Shown(o, t.Dir?, level, Clip(Due(o, t))) && l == Line(file, Clip(Due(o, t)))
    ensures IsLine(o, t, level, file, l)
  {
    assert file + [] == file;
    assert LineFor(o, t, level, file, l, []);
  }

  lemma {:induction false} AllLinesAre(o: Options, ts: seq<Entry>, n: nat, level: nat, dir: Path, l: Line)
    requires n <= |ts| && l in ReportAll(o, ts, n, level, dir)
    ensures IsLineOf(o, ts, n, level, dir, l)
    decreases ts, n
  {
    if l in ReportAll(o, ts, n - 1, level, dir) {
      AllLinesAre(o, ts, n - 1, level, dir, l);
    } else {
      LinesAre(o, ts[n - 1], level, dir + [n - 1], l);
    }
  }

  /** Every entry that is to be shown has its line. */
  lemma {:induction false} HasLine(o: Options, t: Entry, level: nat, file: Path, p: Path)
    requires Visible(o, Reached(t, p), level + |p|)
    ensures Line(file + p, Clip(Due(o, Reached(t, p)))) in Report(o, t, level, file)
    decreases t
  {
    if p == [] {
      assert file + p == file;
    } else {
      AllHaveLines(o, t.entries, |t.entries|, level + 1, file, p);
    }
  }

  lemma {:induction false} AllHaveLines(o: Options, ts: seq<Entry>, n: nat, level: nat, dir: Path, p: Path)
    requires n <= |ts| && p != [] && p[0] < n && Visible(o, Reached(ts[p[0]], p[1..]), level + |p| - 1)
    ensures Line(dir + p, Clip(Due(o, Reached(ts[p[0]], p[1..])))) in ReportAll(o, ts, n, level, dir)
    decreases ts, n
  {
    if p[0] == n - 1 {
      HasLine(o, ts[n - 1], level, dir + [n - 1], p[1..]);
      assert dir + [n - 1] + p[1..] == dir + p;
    } else {
      AllHaveLines(o, ts, n - 1, level, dir, p);
    }
  }

  ghost predicate InOrder(ls: seq<Line>) { forall i, j :: 0 <= i < j < |ls| ==> Precedes(ls[i].file, ls[j].file) }

  lemma InOrderConcat(a: seq<Line>, b: seq<Line>)
    requires InOrder(a) && InOrder(b) && forall x, y :: x in a && y in b ==> Precedes(x.file, y.file)
    ensures InOrder(a + b)
  {
    hide Precedes;
  }

  /** A directory has its line behind those of all that is in it, and otherwise the lines have the
      order of the entries; so no entry has two. */
  lemma {:induction false} LinesInOrder(o: Options, t: Entry, level: nat, file: Path)
    ensures InOrder(Report(o, t, level, file))
    decreases t
  {
    if t.Dir? {
      var below := ReportAll(o, t.entries, |t.entries|, level + 1, file);
      AllInOrder(o, t.entries, |t.entries|, level + 1, file);
      forall x | x in below
        ensures Precedes(x.file, file)
      {
        var i, p := PlaceOf(o, t.entries, |t.entries|, level + 1, file, x);
        PrecedesBehind(file, [i] + p, []);
        assert file + [] == file;
      }
      InOrderConcat(below, Report(o, t, level, file)[|below|..]);
      assert Report(o, t, level, file) == below + Report(o, t, level, file)[|below|..];
    }
  }

  lemma PlaceOf(o: Options, ts: seq<Entry>, n: nat, level: nat, dir: Path, l: Line) returns (i: nat, p: Path)
    requires n <= |ts| && l in ReportAll(o, ts, n, level, dir)
    ensures i < n && l.file == dir + ([i] + p)
  {
    AllLinesAre(o, ts, n, level, dir, l);
    i :| 0 <= i < n && IsLine(o, ts[i], level, dir + [i], l);
    p :| LineFor(o, ts[i], level, dir + [i], l, p);
  }

  lemma {:induction false} AllInOrder(o: Options, ts: seq<Entry>, n: nat, level: nat, dir: Path)
    requires n <= |ts|
    ensures InOrder(ReportAll(o, ts, n, level, dir))
    decreases ts, n
  {
    if n > 0 {
      AllInOrder(o, ts, n - 1, level, dir);
      LinesInOrder(o, ts[n - 1], level, dir + [n - 1]);
      var before, last := ReportAll(o, ts, n - 1, level, dir), Report(o, ts[n - 1], level, dir + [n - 1]);
      forall x, y | x in before && y in last
        ensures Precedes(x.file, y.file)
      {
        var i, p := PlaceOf(o, ts, n - 1, level, dir, x);
        LinesAre(o, ts[n - 1], level, dir + [n - 1], y);
        var q :| LineFor(o, ts[n - 1], level, dir + [n - 1], y, q);
        assert dir + [n - 1] + q == dir + ([n - 1] + q);
        PrecedesBehind(dir, [i] + p, [n - 1] + q);
      }
      InOrderConcat(before, last);
    }
  }

  // The entry at a place, the arguments included.
  function EntryAt(files: seq<Entry>, p: Path): Entry {
    if p == [] || p[0] >= |files| then Skipped else Reached(files[p[0]], p[1..])
  }

  lemma VisibleHasLine(o: Options, files: seq<Entry>, p: Path)
    requires p != [] && Visible(o, EntryAt(files, p), |p| - 1)
    ensures Line(p, Clip(Due(o, EntryAt(files, p)))) in ReportAll(o, files, |files|, 0, [])
  {
    AllHaveLines(o, files, |files|, 0, [], p);
    assert [] + p == p;
  }

  lemma LineMeans(o: Options, files: seq<Entry>, l: Line)
    requires l in ReportAll(o, files, |files|, 0, [])
    ensures l.file != [] && Visible(o, EntryAt(files, l.file), |l.file| - 1) && l.info == Clip(Due(o, EntryAt(files, l.file)))
  {
    AllLinesAre(o, files, |files|, 0, [], l);
    hide Visible, Clip, Due, ReportAll;
    var i :| 0 <= i < |files| && IsLine(o, files[i], 0, [] + [i], l);
    var p :| LineFor(o, files[i], 0, [] + [i], l, p);
    assert l.file == [i] + p && l.file[1..] == p;
  }

  /** All that is printed for the arguments: one line for each entry that is to be shown, with the
      numbers due to it, and no other line. */
  lemma ReportMeans(o: Options, files: seq<Entry>)
    ensures var out := ReportAll(o, files, |files|, 0, []);
            && InOrder(out) && (forall i: nat, j: nat :: i < j < |out| ==> out[i].file != out[j].file)
            && (forall p :: p != [] && Visible(o, EntryAt(files, p), |p| - 1) ==>
                  Line(p, Clip(Due(o, EntryAt(files, p)))) in out)
            && (forall l :: l in out ==>
                  l.file != [] && Visible(o, EntryAt(files, l.file), |l.file| - 1) && l.info == Clip(Due(o, EntryAt(files, l.file))))
  {
    hide *;
    var out := ReportAll(o, files, |files|, 0, []);
    AllInOrder(o, files, |files|, 0, []);
    forall i: nat, j: nat | i < j < |out|
      ensures out[i].file != out[j].file
    {
      NoneTwice(out, i, j);
    }
    forall p | p != [] && Visible(o, EntryAt(files, p), |p| - 1)
      ensures Line(p, Clip(Due(o, EntryAt(files, p)))) in out
    {
      VisibleHasLine(o, files, p);
    }
    forall l | l in out
      ensures l.file != [] && Visible(o, EntryAt(files, l.file), |l.file| - 1) && l.info == Clip(Due(o, EntryAt(files, l.file)))
    {
      LineMeans(o, files, l);
    }
  }

  // ---------- what is due ----------

  /** What is due to a directory, entry by entry: an entry taken away takes with it, without -S, all
      that is due to itself, and with -S its own size if it is no directory. */
  lemma {:induction false} DueMeans(o: Options, size: Uint, ts: seq<Entry>, i: nat)
    requires i < |ts|
    ensures var due, less := Due(o, Dir(size, ts)), Due(o, Dir(size, ts[i := Skipped]));
            var gone := if !o.separateDirs then Due(o, ts[i]) else if ts[i].File? then Exact(ts[i].size, 1) else Exact(0, 0);
            due.size == less.size + gone.size && due.inodes == less.inodes + gone.inodes
  {
    if o.separateDirs {
      FilesWithout(ts, |ts|, i);
    } else {
      SumWithout(ts, |ts|, i);
    }
  }

  lemma {:induction false} SumWithout(ts: seq<Entry>, n: nat, i: nat)
    requires i < |ts| && n <= |ts|
    ensures SumAll(ts, n) == if i < n then Plus(SumAll(ts[i := Skipped], n), Sum(ts[i])) else SumAll(ts[i := Skipped], n)
  {
    if n > 0 {
      SumWithout(ts, n - 1, i);
    }
  }

  lemma {:induction false} FilesWithout(ts: seq<Entry>, n: nat, i: nat)
    requires i < |ts| && n <= |ts|
    ensures FilesOnly(ts, n) == if i < n && ts[i].File? then Plus(FilesOnly(ts[i := Skipped], n), Exact(ts[i].size, 1))
                                else FilesOnly(ts[i := Skipped], n)
  {
    if n > 0 {
      FilesWithout(ts, n - 1, i);
    }
  }

  // What is due to a file, and to a directory with nothing in it that counts.
  lemma {:induction false} DueAlone(o: Options, size: Uint, ts: seq<Entry>)
    requires forall i :: 0 <= i < |ts| ==> ts[i].Skipped?
    ensures Due(o, Dir(size, ts)) == Exact(size, 1)
    ensures Due(o, File(size)) == Exact(size, 1) && Due(o, Skipped) == Exact(0, 0)
  {
    hide SumAll, FilesOnly;
    NothingIn(ts, |ts|);
  }

  lemma {:induction false} NothingIn(ts: seq<Entry>, n: nat)
    requires n <= |ts| && forall i :: 0 <= i < |ts| ==> ts[i].Skipped?
    ensures SumAll(ts, n) == Exact(0, 0) && FilesOnly(ts, n) == Exact(0, 0)
  {
    if n > 0 {
      NothingIn(ts, n - 1);
      assert ts[n - 1] == Skipped && Sum(Skipped) == Exact(0, 0);
      hide Sum;
    }
  }
}
