/** merge: merging any number of sorted files, nmerge at a time, through temporary
    files, even when fewer files than that can be opened at once. */
module MergePasses {
  import opened StableSpec
  import opened SequentialSort
  import opened KWayMerge
  import opened MergeFiles
  import opened Division

  // An entry of the file table; temp says whether merging has created it.
  datatype Entry = Entry(file: File, temp: bool)

  datatype Outcome = Died | Done(output: seq<Line>)

  function Texts(es: seq<Entry>): (r: seq<seq<Line>>)
    ensures |r| == |es| && forall i :: 0 <= i < |es| ==> r[i] == es[i].file.Content()
  {
    seq(|es|, i requires 0 <= i < |es| => es[i].file.Content())
  }

  function Files(es: seq<Entry>): (r: seq<File>)
    ensures |r| == |es| && forall i :: 0 <= i < |es| ==> r[i] == es[i].file
  {
    seq(|es|, i requires 0 <= i < |es| => es[i].file)
  }

  // Under -u only the first line of each class survives.
  function Trim(unique: bool, s: seq<Line>): seq<Line> {
    if unique && |s| > 1 then s[..1] else s
  }

  lemma TrimMiddle(unique: bool, a: seq<Line>, b: seq<Line>, d: seq<Line>)
    ensures Trim(unique, a + Trim(unique, b) + d) == Trim(unique, a + b + d)
  {
    if unique {
      assert |a| > 0 ==> (a + Trim(unique, b) + d)[0] == a[0] && (a + b + d)[0] == a[0];
      assert |a| == 0 && |b| > 0 ==> (a + Trim(unique, b) + d)[0] == b[0] && (a + b + d)[0] == b[0];
    }
  }

  // The same lines survive from both.
  ghost predicate SameSurvivors(cmp: Order, unique: bool, a: seq<Line>, b: seq<Line>) {
    forall x :: Trim(unique, Class(cmp, x, a)) == Trim(unique, Class(cmp, x, b))
  }

  lemma {:induction false} ClassAfter(cmp: Order, x: Line, last: Line, s: seq<Line>)
    requires TotalPreorder(cmp) && Ascending(cmp, [last] + s)
    ensures Class(cmp, x, UniqAfter(cmp, last, s)) == (if cmp(x, last) == 0 then [] else Trim(true, Class(cmp, x, s)))
    ensures Ascending(cmp, [last] + UniqAfter(cmp, last, s))
    decreases |s|
  {
    if s != [] {
      var rest := s[1..];
      assert ([last] + s)[1..] == s && s == [s[0]] + rest;
      Opposite(cmp, last, s[0]);
      Opposite(cmp, x, last);
      Opposite(cmp, x, s[0]);
      if cmp(last, s[0]) == 0 {
        if rest != [] { Transitive(cmp, last, s[0], rest[0]); }
        assert Ascending(cmp, [last] + rest) by { Replaced(cmp, last, s[0], rest); }
        ClassAfter(cmp, x, last, rest);
        if cmp(x, last) <= 0 { Transitive(cmp, x, last, s[0]); }
        if cmp(x, s[0]) <= 0 { Transitive(cmp, x, s[0], last); }
      } else {
        ClassAfter(cmp, x, s[0], rest);
        if cmp(x, last) == 0 {
          Transitive(cmp, x, last, s[0]);
        }
        var u := UniqAfter(cmp, s[0], rest);
        assert ([last] + ([s[0]] + u))[1..] == [s[0]] + u;
        if cmp(x, last) == 0 || cmp(x, s[0]) == 0 {
          NoneLeft(cmp, x, s);
        }
      }
    }
  }

  lemma Replaced(cmp: Order, x: Line, y: Line, s: seq<Line>)
    requires Ascending(cmp, [y] + s) && (s != [] ==> cmp(x, s[0]) <= 0)
    ensures Ascending(cmp, [x] + s)
  {
    assert ([y] + s)[1..] == s && ([x] + s)[1..] == s;
  }

  // Nothing in a sorted sequence is as low as a line below its first.
  lemma NoneLeft(cmp: Order, x: Line, s: seq<Line>)
    requires TotalPreorder(cmp) && s != [] && Ascending(cmp, s)
    ensures cmp(x, s[0]) < 0 ==> Class(cmp, x, s) == []
  {
    if cmp(x, s[0]) < 0 {
      AscendingSorted(cmp, s);
      forall i | 0 <= i < |s|
        ensures cmp(x, s[i]) != 0
      {
        if i > 0 { Transitive(cmp, x, s[0], s[i]); }
      }
      ClassEmpty(cmp, x, s);
    }
  }

  // What is written keeps the order, and the survivors of every class.
  lemma SelectedClass(cmp: Order, unique: bool, s: seq<Line>)
    requires TotalPreorder(cmp) && Sorted(cmp, s)
    ensures Sorted(cmp, Selected(cmp, unique, s))
    ensures forall x :: Class(cmp, x, Selected(cmp, unique, s)) == Trim(unique, Class(cmp, x, s))
  {
    if unique && s != [] {
      SortedAscending(cmp, s);
      assert s == [s[0]] + s[1..];
      forall x
        ensures Class(cmp, x, Uniq(cmp, s)) == Trim(true, Class(cmp, x, s))
      {
        ClassAfter(cmp, x, s[0], s[1..]);
      }
      ClassAfter(cmp, s[0], s[0], s[1..]);
      AscendingSorted(cmp, Uniq(cmp, s));
    }
  }

  // ---------------------------------------------------------------- the file table

  ghost predicate EntryOk(cmp: Order, e: Entry) { e.file.Valid() && Sorted(cmp, e.file.Content()) }

  ghost predicate EntriesOk(cmp: Order, es: seq<Entry>, ntemps: nat) {
    forall i :: 0 <= i < |es| ==> EntryOk(cmp, es[i]) && (es[i].temp <==> i < ntemps)
  }

  /** All files are sorted, the first ntemps and no others are temporaries, and what
      would survive merging them is what would survive merging the original files. */
  ghost predicate TableOk(cmp: Order, unique: bool, es: seq<Entry>, ntemps: nat, orig: seq<Line>) {
    && EntriesOk(cmp, es, ntemps) && ntemps <= |es|
    && SameSurvivors(cmp, unique, Flatten(Texts(es)), orig)
  }

  lemma {:induction false} FlattenAppend(a: seq<seq<Line>>, b: seq<seq<Line>>)
    ensures Flatten(a + b) == Flatten(a) + Flatten(b)
  {
    if a == [] {
      assert a + b == b;
    } else {
      assert (a + b)[0] == a[0] && (a + b)[1..] == a[1..] + b;
      FlattenAppend(a[1..], b);
    }
  }

  lemma FlattenParts(a: seq<Entry>, b: seq<Entry>, d: seq<Entry>)
    ensures Flatten(Texts(a + b + d)) == Flatten(Texts(a)) + Flatten(Texts(b)) + Flatten(Texts(d))
  {
    assert Texts(a + b + d) == Texts(a) + Texts(b) + Texts(d);
    FlattenAppend(Texts(a), Texts(b));
    FlattenAppend(Texts(a) + Texts(b), Texts(d));
  }

  lemma FlattenOne(e: Entry)
    ensures Flatten(Texts([e])) == e.file.Content()
  {
    assert Texts([e])[1..] == [];
    assert e.file.Content() + [] == e.file.Content();
  }

  // What is written for a run of files has the survivors of that run.
  lemma MergedSurvivors(cmp: Order, unique: bool, b: seq<Entry>, x: Line)
    requires TotalPreorder(cmp) && forall i :: 0 <= i < |b| ==> EntryOk(cmp, b[i])
    ensures Sorted(cmp, Selected(cmp, unique, MergeAll(cmp, Texts(b))))
    ensures Class(cmp, x, Selected(cmp, unique, MergeAll(cmp, Texts(b)))) == Trim(unique, Class(cmp, x, Flatten(Texts(b))))
  {
    MergeAllStable(cmp, Texts(b));
    SelectedClass(cmp, unique, MergeAll(cmp, Texts(b)));
  }

  // Replacing neighbouring files by their merge changes nothing that will survive.
  lemma ReplaceRun(cmp: Order, unique: bool, a: seq<Entry>, b: seq<Entry>, d: seq<Entry>, e: Entry)
    requires TotalPreorder(cmp) && forall i :: 0 <= i < |b| ==> EntryOk(cmp, b[i])
    requires e.file.Content() == Selected(cmp, unique, MergeAll(cmp, Texts(b)))
    ensures SameSurvivors(cmp, unique, Flatten(Texts(a + [e] + d)), Flatten(Texts(a + b + d)))
  {
    FlattenParts(a, b, d);
    FlattenParts(a, [e], d);
    FlattenOne(e);
    forall x
      ensures Trim(unique, Class(cmp, x, Flatten(Texts(a + [e] + d)))) == Trim(unique, Class(cmp, x, Flatten(Texts(a + b + d))))
    {
      MergedSurvivors(cmp, unique, b, x);
      hide *;
      var fa, fb, fd := Flatten(Texts(a)), Flatten(Texts(b)), Flatten(Texts(d));
      var fe := e.file.Content();
      ClassAppend(cmp, x, fa, fe);
      ClassAppend(cmp, x, fa + fe, fd);
      ClassAppend(cmp, x, fa, fb);
      ClassAppend(cmp, x, fa + fb, fd);
      TrimMiddle(unique, Class(cmp, x, fa), Class(cmp, x, fb), Class(cmp, x, fd));
    }
  }

  lemma ReplaceEntries(cmp: Order, a: seq<Entry>, b: seq<Entry>, d: seq<Entry>, e: Entry, ntemps: nat)
    requires b != [] && EntriesOk(cmp, a + b + d, |a| + ntemps) && e.temp && EntryOk(cmp, e)
    ensures EntriesOk(cmp, b, ntemps)
    ensures EntriesOk(cmp, a + [e] + d, |a| + 1 + (if ntemps <= |b| then 0 else ntemps - |b|))
  {
    hide EntryOk;
    var es, es' := a + b + d, a + [e] + d;
    forall i | 0 <= i < |es'|
      ensures EntryOk(cmp, es'[i])
      ensures es'[i].temp <==> i < |a| + 1 + (if ntemps <= |b| then 0 else ntemps - |b|)
    {
      if i < |a| {
        assert es'[i] == es[i];
      } else if i == |a| {
        assert es'[i] == e;
      } else {
        assert es'[i] == es[i + |b| - 1];
      }
    }
    forall i | 0 <= i < |b|
      ensures EntryOk(cmp, b[i]) && (b[i].temp <==> i < ntemps)
    {
      assert b[i] == es[|a| + i];
    }
  }

  // Merging the run b, of which the first entries are temporaries, into one new temporary.
  lemma ReplaceKeepsTable(cmp: Order, unique: bool, a: seq<Entry>, b: seq<Entry>, d: seq<Entry>, e: Entry,
                          ntemps: nat, orig: seq<Line>)
    requires TotalPreorder(cmp) && TableOk(cmp, unique, a + b + d, |a| + ntemps, orig) && b != []
    requires e.temp && e.file.Valid() && e.file.Content() == Selected(cmp, unique, MergeAll(cmp, Texts(b)))
    ensures TableOk(cmp, unique, a + [e] + d, |a| + 1 + (if ntemps <= |b| then 0 else ntemps - |b|), orig)
  {
    hide TotalPreorder, Sorted, Selected, MergeAll, Flatten, Class, Trim;
    assert forall i :: 0 <= i < |b| ==> b[i] == (a + b + d)[|a| + i];
    MergedSurvivors(cmp, unique, b, Line([]));
    ReplaceRun(cmp, unique, a, b, d, e);
    ReplaceEntries(cmp, a, b, d, e, ntemps);
    hide EntryOk, EntriesOk;
  }

  // The names of the temporaries among some entries.
  function TempNames(es: seq<Entry>): seq<nat> {
    if es == [] then [] else (if es[0].temp then [es[0].file.name] else []) + TempNames(es[1..])
  }

  lemma {:induction false} FrontIsTemps(es: seq<Entry>, ntemps: nat)
    requires forall i :: 0 <= i < |es| ==> (es[i].temp <==> i < ntemps)
    ensures Front(FileNames(Files(es)), ntemps) == TempNames(es)
  {
    var names := FileNames(Files(es));
    if es != [] {
      forall i | 0 <= i < |es[1..]|
        ensures es[1..][i].temp <==> i < (if ntemps == 0 then 0 else ntemps - 1)
      {
        assert es[1..][i] == es[i + 1];
      }
      FrontIsTemps(es[1..], if ntemps == 0 then 0 else ntemps - 1);
      assert FileNames(Files(es[1..])) == names[1..];
      if ntemps > 0 {
        var k := if ntemps <= |names| then ntemps else |names|;
        assert names[..k] == [names[0]] + names[1..][..k - 1];
        assert Front(names, ntemps) == names[..k];
        assert Front(names[1..], ntemps - 1) == names[1..][..k - 1];
      }
    }
  }

  // ---------------------------------------------------------------- the program

  function Min(a: nat, b: nat): (r: nat)
    ensures r <= a && r <= b && (r == a || r == b)
  {
    if a <= b then a else b
  }

  /** What the call that opens the output comes back with. */
  datatype Answer = Opened | NoDescriptor | Refused

  /** What the system answers in one attempt to merge: how many inputs it lets be opened, whether
      the output opens, how many attempts to create a temporary file fail for want of descriptors,
      and whether the next one succeeds (if not, it fails for another reason). */
  datatype Round = Round(inputs: nat, output: Answer, retries: nat, created: bool)

  // open_input_files: as many of n files as will open.
  method OpenInputFiles(r: Round, n: nat) returns (nopened: nat)
    ensures nopened == Min(r.inputs, n)
  {
    nopened := 0;
    while nopened < n && nopened < r.inputs
      invariant 0 <= nopened <= Min(r.inputs, n)
    {
      nopened := nopened + 1;
    }
  }

  // A temporary file under some name, with the given lines, to be read back in some buffers.
  method WriteTemp(lines: seq<Line>) returns (e: Entry)
    ensures e.temp && e.file.Valid() && e.file.Content() == lines
  {
    var name: nat := *;
    var blocks := if lines == [] then [] else [lines];
    assert lines != [] ==> blocks[0] + Flatten(blocks[1..]) == lines;
    e := Entry(File(name, blocks), true);
  }

  /** mergefps of open files into a new temporary.  Of the files read, the temporaries are
      removed and no others. */
  method MergeOpen(cmp: Order, unique: bool, run: seq<Entry>, ntemps: nat) returns (temp: Entry, zapped: seq<nat>)
    requires TotalPreorder(cmp) && EntriesOk(cmp, run, ntemps)
    ensures temp.temp && temp.file.Valid() && temp.file.Content() == Selected(cmp, unique, MergeAll(cmp, Texts(run)))
    ensures multiset(zapped) == multiset(TempNames(run))
  {
    assert FilesValid(Files(run));
    FrontIsTemps(run, ntemps);
    assert Contents(Files(run)) == Texts(run);
    hide *;
    var out;
    out, zapped := MergeFps(cmp, unique, Files(run), ntemps);
    temp := WriteTemp(out);
  }

  /** create_temp and mergefiles: merges as much of run as can be opened into a temporary; the
      program ends if there is no temporary, or if not all are open and not even two. */
  method MergeToTemp(cmp: Order, unique: bool, r: Round, run: seq<Entry>, ntemps: nat)
    returns (died: bool, merged: nat, temp: Entry, zapped: seq<nat>)
    requires TotalPreorder(cmp) && EntriesOk(cmp, run, ntemps)
    ensures merged == Min(r.inputs, |run|)
    ensures died <==> r.retries > 0 || !r.created || (r.inputs < |run| && r.inputs < 2)
    ensures !died ==> temp.temp && temp.file.Valid()
                      && temp.file.Content() == Selected(cmp, unique, MergeAll(cmp, Texts(run[..merged])))
    ensures !died ==> multiset(zapped) == multiset(TempNames(run[..merged]))
  {
    merged := OpenInputFiles(r, |run|);
    died, temp, zapped := r.retries > 0 || !r.created, Entry(File(0, []), true), [];
    if !died {
      if merged < |run| && merged < 2 {
        died := true;
      } else {
        temp, zapped := MergeOpen(cmp, unique, run[..merged], ntemps);
      }
    }
  }

  // The table in the middle of a pass: new temporaries up to out, files still to do from next on.
  function Table(es: seq<Entry>, out: nat, next: nat): seq<Entry>
    requires out <= next <= |es|
  {
    es[..out] + es[next..]
  }

  lemma TableStep(es: seq<Entry>, out: nat, next: nat, merged: nat, e: Entry)
    requires out <= next && 0 < merged && next + merged <= |es|
    ensures Table(es, out, next) == es[..out] + es[next..next + merged] + es[next + merged..]
    ensures Table(es[out := e], out + 1, next + merged) == es[..out] + [e] + es[next + merged..]
    ensures es[next..next + merged] != []
  {
  }

  lemma TodoOk(cmp: Order, unique: bool, es: seq<Entry>, out: nat, next: nat, count: nat, ntemps: nat, orig: seq<Line>)
    requires out <= next && next + count <= |es| && TableOk(cmp, unique, Table(es, out, next), out + ntemps, orig)
    ensures EntriesOk(cmp, es[next..next + count], ntemps)
    ensures EntriesOk(cmp, es[next..next + count], Min(ntemps, count))
  {
    var t, run := Table(es, out, next), es[next..next + count];
    assert forall i :: 0 <= i < count ==> run[i] == t[out + i];
  }

  lemma StepTable(cmp: Order, unique: bool, es: seq<Entry>, out: nat, next: nat, merged: nat, e: Entry, ntemps: nat,
                  orig: seq<Line>)
    requires TotalPreorder(cmp) && out <= next && 0 < merged && next + merged <= |es|
    requires TableOk(cmp, unique, Table(es, out, next), out + ntemps, orig)
    requires e.temp && e.file.Valid()
    requires e.file.Content() == Selected(cmp, unique, MergeAll(cmp, Texts(es[next..next + merged])))
    ensures TableOk(cmp, unique, Table(es[out := e], out + 1, next + merged), out + 1 + (ntemps - Min(ntemps, merged)), orig)
  {
    TableStep(es, out, next, merged, e);
    hide TableOk, Table, Selected, MergeAll, Texts, TotalPreorder;
    ReplaceKeepsTable(cmp, unique, es[..out], es[next..next + merged], es[next + merged..], e, ntemps, orig);
  }

  /** One merge of a pass: count files from next on, or as many of them as can be opened,
      become the temporary at out. */
  method MergeStep(cmp: Order, unique: bool, r: Round, es: seq<Entry>, out: nat, next: nat, count: nat, ntemps: nat,
                   ghost orig: seq<Line>)
    returns (died: bool, es': seq<Entry>, merged: nat, ntemps': nat)
    requires TotalPreorder(cmp) && 2 <= count && out <= next && next + count <= |es|
    requires TableOk(cmp, unique, Table(es, out, next), out + ntemps, orig)
    ensures merged == Min(r.inputs, count)
    ensures died <==> r.retries > 0 || !r.created || r.inputs < 2
    ensures !died ==> 2 <= merged <= count && |es'| == |es|
    ensures !died ==> TableOk(cmp, unique, Table(es', out + 1, next + merged), out + 1 + ntemps', orig)
  {
    hide *;
    TodoOk(cmp, unique, es, out, next, count, ntemps, orig);
    var temp, zapped;
    var run := es[next..next + count];
    died, merged, temp, zapped := MergeToTemp(cmp, unique, r, run, Min(ntemps, count));
    es', ntemps' := es, ntemps;
    if !died {
      assert run[..merged] == es[next..next + merged];
      StepTable(cmp, unique, es, out, next, merged, temp, ntemps, orig);
      es' := es[out := temp];
      ntemps' := ntemps - Min(ntemps, merged);
    }
  }

  // Slots left in the last window of nmerge outputs.
  function CheapSlots(nmerge: nat, out: nat): (r: nat)
    requires nmerge > 0
    ensures 1 <= r <= nmerge
  {
    nmerge - out % nmerge
  }

  function Times(a: nat, b: nat): int { a * b }

  // The most files a pass can leave if all its merges open all their files.
  function Remaining(n: nat, nmerge: nat): int
    requires nmerge > 0
  {
    nmerge * (n / nmerge / nmerge + 1)
  }

  lemma TimesStep(a: nat, b: nat)
    ensures Times(0, b) == 0 && Times(a + 1, b) == Times(a, b) + b
  {
  }

  lemma FullPass(n: nat, nmerge: nat, q: nat, r: nat)
    requires nmerge > 0 && n == Times(q, nmerge) + r && r < nmerge
    ensures q + CheapSlots(nmerge, q) == Remaining(n, nmerge) && q == n / nmerge
  {
    DivModUnique(n, q, r, nmerge);
    assert q == nmerge * (q / nmerge) + q % nmerge;
    assert nmerge * (q / nmerge + 1) == nmerge * (q / nmerge) + nmerge;
  }

  // How many files fewer there are after merges of the given numbers of files.
  function Saved(widths: seq<nat>): int {
    if widths == [] then 0 else Saved(widths[..|widths| - 1]) + widths[|widths| - 1] - 1
  }

  lemma {:induction false} SavedConcat(a: seq<nat>, b: seq<nat>)
    ensures Saved(a + b) == Saved(a) + Saved(b)
  {
    if b == [] {
      assert a + b == a;
    } else {
      SavedConcat(a, b[..|b| - 1]);
      assert (a + b)[..|a + b| - 1] == a + b[..|b| - 1];
    }
  }

  // No merge is of more than nmerge files.
  predicate Within(widths: seq<nat>, nmerge: nat) { forall k :: 0 <= k < |widths| ==> widths[k] <= nmerge }

  lemma OneMoreMerge(widths: seq<nat>, w: nat, nmerge: nat)
    requires Within(widths, nmerge) && w <= nmerge
    ensures Within(widths + [w], nmerge) && Saved(widths + [w]) == Saved(widths) + w - 1
  {
    assert (widths + [w])[..|widths|] == widths;
  }

  lemma TableStart(es: seq<Entry>)
    ensures Table(es, 0, 0) == es
  {
  }

  // ---------------------------------------------------------------- the rounds

  /** Where merge stands, as far as the numbers of files go: in a pass over n files of which done
      are merged into out temporaries, or in the final merge of n files. */
  datatype Stage = Passing(n: nat, done: nat, out: nat) | Ending(n: nat)

  function Start(nmerge: nat, n: nat): Stage { if nmerge < n then Passing(n, 0, 0) else Ending(n) }

  // In a pass; at its end if there is no merge left to be made in it.
  function Place(nmerge: nat, n: nat, done: nat, out: nat): Stage
    requires nmerge > 0 && done <= n
  {
    if nmerge <= n - done || CheapSlots(nmerge, out) < n - done then Passing(n, done, out) else Start(nmerge, out + n - done)
  }

  predicate StageOk(nmerge: nat, s: Stage) {
    && nmerge >= 2
    && (s.Passing? ==> s.done <= s.n && (nmerge <= s.n - s.done || CheapSlots(nmerge, s.out) < s.n - s.done))
    && (s.Ending? ==> s.n <= nmerge)
  }

  /** The number of files the next merge is meant for. */
  function Asked(nmerge: nat, s: Stage): (a: nat)
    requires StageOk(nmerge, s)
    ensures a <= nmerge && (s.Passing? ==> a >= 2 && s.done + a <= s.n)
  {
    match s
    case Passing(n, done, out) => if nmerge <= n - done then nmerge else n - done - CheapSlots(nmerge, out) + 1
    case Ending(n) => n
  }

  /** The round ends the program, without the output being written. */
  predicate Dies(nmerge: nat, s: Stage, r: Round)
    requires StageOk(nmerge, s)
  {
    match s
    case Passing(_, _, _) => r.retries > 0 || !r.created || r.inputs < 2
    case Ending(n) =>
      var got := Min(r.inputs, n);
      if got == n && r.output == Opened then false
      else (got == n && r.output == Refused) || got <= 2 || (r.retries > 0 && got - r.retries <= 2) || !r.created
  }

  /** The round writes the output. */
  predicate Writes(nmerge: nat, s: Stage, r: Round) { s.Ending? && r.inputs >= s.n && r.output == Opened }

  predicate Ends(nmerge: nat, s: Stage, r: Round)
    requires StageOk(nmerge, s)
  {
    Dies(nmerge, s, r) || Writes(nmerge, s, r)
  }

  /** The number of files that the round merges. */
  function Width(nmerge: nat, s: Stage, r: Round): (w: nat)
    requires StageOk(nmerge, s) && !Dies(nmerge, s, r)
    ensures w <= Asked(nmerge, s) && (Writes(nmerge, s, r) ==> w == s.n)
    ensures !Writes(nmerge, s, r) ==> w >= 2 && (s.Ending? ==> w < s.n)
  {
    var got := Min(r.inputs, Asked(nmerge, s));
    if s.Passing? || Writes(nmerge, s, r) then got else got - 1 - r.retries
  }

  function After(nmerge: nat, s: Stage, r: Round): (s': Stage)
    requires StageOk(nmerge, s) && !Ends(nmerge, s, r)
    ensures StageOk(nmerge, s')
  {
    var w := Width(nmerge, s, r);
    match s
    case Passing(n, done, out) =>
      if nmerge <= n - done then Place(nmerge, n, done + w, out + 1) else Start(nmerge, out + 1 + n - (done + w))
    case Ending(n) => Ending(n - w + 1)
  }

  /** From stage s in round t the program comes to stage s' in round t'; widths are the numbers of
      files of the merges made on the way. */
  ghost predicate Leads(nmerge: nat, env: nat -> Round, t: nat, s: Stage, t': nat, s': Stage, widths: seq<nat>)
    requires StageOk(nmerge, s)
    decreases t' - t
  {
    if t >= t' then t == t' && s == s' && widths == []
    else
      && !Ends(nmerge, s, env(t)) && widths != [] && widths[0] == Width(nmerge, s, env(t))
      && Leads(nmerge, env, t + 1, After(nmerge, s, env(t)), t', s', widths[1..])
  }

  lemma {:induction false} LeadsOn(nmerge: nat, env: nat -> Round, t: nat, s: Stage, t': nat, s': Stage, widths: seq<nat>)
    requires StageOk(nmerge, s) && Leads(nmerge, env, t, s, t', s', widths)
    ensures StageOk(nmerge, s') && t <= t'
    ensures !Ends(nmerge, s', env(t')) ==>
              Leads(nmerge, env, t, s, t' + 1, After(nmerge, s', env(t')), widths + [Width(nmerge, s', env(t'))])
    decreases t' - t
  {
    hide After, Width, Dies, Writes, Asked;
    if t < t' {
      LeadsOn(nmerge, env, t + 1, After(nmerge, s, env(t)), t', s', widths[1..]);
      if !Ends(nmerge, s', env(t')) {
        var w := Width(nmerge, s', env(t'));
        assert (widths + [w])[1..] == widths[1..] + [w];
      }
    } else if !Ends(nmerge, s', env(t')) {
      var w := Width(nmerge, s', env(t'));
      assert ([] + [w])[1..] == [];
      assert Leads(nmerge, env, t + 1, After(nmerge, s, env(t)), t' + 1, After(nmerge, s', env(t')), []);
    }
  }

  // The files there are at a stage: new temporaries and those still to do.
  function Count(s: Stage): int {
    match s
    case Passing(n, done, out) => n - done + out
    case Ending(n) => n
  }

  lemma {:induction false} LeadsWidths(nmerge: nat, env: nat -> Round, t: nat, s: Stage, t': nat, s': Stage, widths: seq<nat>)
    requires StageOk(nmerge, s) && Leads(nmerge, env, t, s, t', s', widths)
    ensures Within(widths, nmerge) && |widths| == t' - t && Count(s') == Count(s) - Saved(widths)
    decreases t' - t
  {
    hide Dies, Writes, Asked;
    if t < t' {
      LeadsWidths(nmerge, env, t + 1, After(nmerge, s, env(t)), t', s', widths[1..]);
      SavedConcat([widths[0]], widths[1..]);
      assert [widths[0]] + widths[1..] == widths;
      assert [widths[0]][..0] == [];
    }
  }

  lemma {:induction false} LeadsJoin(nmerge: nat, env: nat -> Round, t: nat, s: Stage, t': nat, s': Stage, a: seq<nat>,
                                     t'': nat, s'': Stage, b: seq<nat>)
    requires StageOk(nmerge, s) && Leads(nmerge, env, t, s, t', s', a)
    requires StageOk(nmerge, s') && Leads(nmerge, env, t', s', t'', s'', b)
    ensures Leads(nmerge, env, t, s, t'', s'', a + b)
    decreases t' - t
  {
    hide After, Width, Dies, Writes, Asked;
    if t < t' {
      LeadsJoin(nmerge, env, t + 1, After(nmerge, s, env(t)), t', s', a[1..], t'', s'', b);
      assert (a + b)[1..] == a[1..] + b;
      LeadsOn(nmerge, env, t + 1, After(nmerge, s, env(t)), t'', s'', a[1..] + b);
    } else {
      assert [] + b == b;
    }
  }

  /** What becomes of the program is determined by the answers of the system. */
  lemma {:induction false} OneFate(nmerge: nat, env: nat -> Round, t: nat, s: Stage, t1: nat, s1: Stage, a: seq<nat>,
                                   t2: nat, s2: Stage, b: seq<nat>)
    requires StageOk(nmerge, s) && Leads(nmerge, env, t, s, t1, s1, a) && Leads(nmerge, env, t, s, t2, s2, b)
    requires StageOk(nmerge, s1) && Ends(nmerge, s1, env(t1)) && StageOk(nmerge, s2) && Ends(nmerge, s2, env(t2))
    ensures t1 == t2 && s1 == s2 && a == b
    decreases t1 - t
  {
    hide After, Width, Dies, Writes, Asked, Ends;
    if t < t1 && t < t2 {
      OneFate(nmerge, env, t + 1, After(nmerge, s, env(t)), t1, s1, a[1..], t2, s2, b[1..]);
      assert a == [a[0]] + a[1..] && b == [b[0]] + b[1..];
    }
  }

  /** The final merge dies exactly if neither the output opens behind all its inputs nor a
      temporary can be had: because the output is refused, because no more than two inputs are
      open, because an attempt fails with no more than two inputs left open, or for another reason. */
  lemma EndingDies(nmerge: nat, n: nat, r: Round)
    requires StageOk(nmerge, Ending(n))
    ensures var got := Min(r.inputs, n);
            Dies(nmerge, Ending(n), r) <==>
              && !(got == n && r.output == Opened)
              && (|| (got == n && (r.output == Refused || got <= 2))
                  || (got < n && got <= 2)
                  || (exists k :: 0 <= k < r.retries && Left(got, k) <= 2)
                  || !r.created)
  {
    var got := Min(r.inputs, n);
    if r.retries > 0 {
      assert Left(got, r.retries - 1) == got - r.retries;
    }
  }

  // The inputs open in attempt k to create a temporary.
  function Left(got: nat, k: int): int { got - 1 - k }

  /** A merge in a pass dies exactly if there is no temporary at the first attempt, or if not all its
      inputs open and not even two. */
  lemma PassingDies(nmerge: nat, s: Stage, r: Round)
    requires StageOk(nmerge, s) && s.Passing?
    ensures var got := Min(r.inputs, Asked(nmerge, s));
            Dies(nmerge, s, r) <==> r.retries > 0 || !r.created || (got < Asked(nmerge, s) && got < 2)
  {
  }

  // Everything opens and every temporary can be created.
  predicate Smooth(nmerge: nat, r: Round) { r.inputs >= nmerge && r.output == Opened && r.retries == 0 && r.created }

  /** If everything opens, the program does not die. */
  lemma {:induction false} SmoothWrites(nmerge: nat, env: nat -> Round, s: Stage, t: nat)
    requires StageOk(nmerge, s) && Smooth(nmerge, env(t))
    ensures !Dies(nmerge, s, env(t))
  {
  }

  /** All merges on the way get all the inputs they are meant for. */
  ghost predicate AllOpened(nmerge: nat, env: nat -> Round, t: nat, s: Stage, t': nat)
    requires StageOk(nmerge, s)
    decreases t' - t
  {
    t < t' ==>
      && env(t).inputs >= Asked(nmerge, s)
      && (!Ends(nmerge, s, env(t)) ==> AllOpened(nmerge, env, t + 1, After(nmerge, s, env(t)), t'))
  }

  lemma {:induction false} AllOpenedOn(nmerge: nat, env: nat -> Round, t: nat, s: Stage, t': nat, s': Stage, widths: seq<nat>)
    requires StageOk(nmerge, s) && StageOk(nmerge, s') && Leads(nmerge, env, t, s, t', s', widths)
    ensures AllOpened(nmerge, env, t, s, t' + 1) <==>
              AllOpened(nmerge, env, t, s, t') && env(t').inputs >= Asked(nmerge, s')
    decreases t' - t
  {
    hide After, Width, Dies, Writes, Asked;
    if t < t' {
      AllOpenedOn(nmerge, env, t + 1, After(nmerge, s, env(t)), t', s', widths[1..]);
    }
  }

  // ---------------------------------------------------------------- the passes

  // The next full merge of a pass.
  lemma FullStep(nmerge: nat, env: nat -> Round, t0: nat, t: nat, n: nat, done: nat, out: nat, widths: seq<nat>)
    requires 2 <= nmerge < n && nmerge <= n - done && done <= n
    requires Leads(nmerge, env, t0, Passing(n, 0, 0), t, Passing(n, done, out), widths)
    ensures var s, r := Passing(n, done, out), env(t);
            && (Dies(nmerge, s, r) <==> r.retries > 0 || !r.created || r.inputs < 2)
            && (!Dies(nmerge, s, r) ==>
                  var w := Min(r.inputs, nmerge);
                  && Leads(nmerge, env, t0, Passing(n, 0, 0), t + 1, Place(nmerge, n, done + w, out + 1), widths + [w])
                  && (AllOpened(nmerge, env, t0, Passing(n, 0, 0), t + 1) <==>
                        AllOpened(nmerge, env, t0, Passing(n, 0, 0), t) && w == nmerge))
  {
    LeadsOn(nmerge, env, t0, Passing(n, 0, 0), t, Passing(n, done, out), widths);
    AllOpenedOn(nmerge, env, t0, Passing(n, 0, 0), t, Passing(n, done, out), widths);
    hide Leads, AllOpened, Place;
  }

  // The short merge of a pass.
  lemma ShortStep(nmerge: nat, env: nat -> Round, t0: nat, t: nat, n: nat, done: nat, out: nat, widths: seq<nat>)
    requires 2 <= nmerge < n && done <= n && CheapSlots(nmerge, out) < n - done < nmerge
    requires Leads(nmerge, env, t0, Passing(n, 0, 0), t, Passing(n, done, out), widths)
    ensures var s, r, count := Passing(n, done, out), env(t), n - done - CheapSlots(nmerge, out) + 1;
            && (Dies(nmerge, s, r) <==> r.retries > 0 || !r.created || r.inputs < 2)
            && (!Dies(nmerge, s, r) ==>
                  var w := Min(r.inputs, count);
                  && Leads(nmerge, env, t0, Passing(n, 0, 0), t + 1, Start(nmerge, out + 1 + n - (done + w)), widths + [w])
                  && (AllOpened(nmerge, env, t0, Passing(n, 0, 0), t + 1) <==>
                        AllOpened(nmerge, env, t0, Passing(n, 0, 0), t) && w == count))
  {
    LeadsOn(nmerge, env, t0, Passing(n, 0, 0), t, Passing(n, done, out), widths);
    AllOpenedOn(nmerge, env, t0, Passing(n, 0, 0), t, Passing(n, done, out), widths);
    hide Leads, AllOpened, Start, CheapSlots;
  }

  lemma PassStarts(nmerge: nat, env: nat -> Round, t0: nat, n: nat)
    requires 2 <= nmerge < n
    ensures StageOk(nmerge, Passing(n, 0, 0)) && Place(nmerge, n, 0, 0) == Start(nmerge, n) == Passing(n, 0, 0)
    ensures Leads(nmerge, env, t0, Passing(n, 0, 0), t0, Passing(n, 0, 0), [])
    ensures AllOpened(nmerge, env, t0, Passing(n, 0, 0), t0) && Times(0, nmerge) == 0
  {
  }

  lemma StartOk(nmerge: nat, n: nat)
    requires 2 <= nmerge
    ensures StageOk(nmerge, Start(nmerge, n)) && Count(Start(nmerge, n)) == n
    ensures Start(nmerge, n) == if nmerge < n then Passing(n, 0, 0) else Ending(n)
  {
  }

  lemma LeadsNowhere(nmerge: nat, env: nat -> Round, t: nat, s: Stage)
    requires StageOk(nmerge, s)
    ensures Leads(nmerge, env, t, s, t, s, [])
  {
  }

  lemma PlaceIs(nmerge: nat, n: nat, done: nat, out: nat)
    requires nmerge > 0 && done <= n
    ensures nmerge >= 2 ==> StageOk(nmerge, Place(nmerge, n, done, out))
    ensures Place(nmerge, n, done, out)
            == if nmerge <= n - done || CheapSlots(nmerge, out) < n - done then Passing(n, done, out) else Start(nmerge, out + n - done)
  {
  }

  /** The merges of nmerge files each, as long as there are so many; if they all get all their
      files, they are as many as fit. */
  method FullMerges(cmp: Order, unique: bool, nmerge: nat, env: nat -> Round, t0: nat, es0: seq<Entry>, ntemps0: nat,
                    ghost orig: seq<Line>)
    returns (died: bool, es: seq<Entry>, out: nat, next: nat, ntemps: nat, t: nat, ghost widths: seq<nat>)
    requires TotalPreorder(cmp) && 2 <= nmerge < |es0|
    requires TableOk(cmp, unique, es0, ntemps0, orig)
    ensures StageOk(nmerge, Passing(|es0|, 0, 0)) && out <= next <= |es0|
    ensures Leads(nmerge, env, t0, Passing(|es0|, 0, 0), t, Place(nmerge, |es0|, next, out), widths)
    ensures died ==> nmerge <= |es0| - next && Dies(nmerge, Passing(|es0|, next, out), env(t))
    ensures !died ==> |es| == |es0| && 0 < next && 2 * out <= next && |es| - next < nmerge
    ensures !died ==> TableOk(cmp, unique, Table(es, out, next), out + ntemps, orig)
    ensures !died && AllOpened(nmerge, env, t0, Passing(|es0|, 0, 0), t) ==> next == Times(out, nmerge)
    ensures |widths| == out
  {
    hide *;
    es, out, next, ntemps, died, t, widths := es0, 0, 0, ntemps0, false, t0, [];
    TableStart(es);
    PassStarts(nmerge, env, t0, |es0|);
    ghost var start := Passing(|es0|, 0, 0);
    while nmerge <= |es| - next
      invariant |es| == |es0| && 2 * out <= next <= |es| && (out > 0 || next == 0) && StageOk(nmerge, start)
      invariant |widths| == out
      invariant TableOk(cmp, unique, Table(es, out, next), out + ntemps, orig)
      invariant Leads(nmerge, env, t0, start, t, Place(nmerge, |es|, next, out), widths)
      invariant AllOpened(nmerge, env, t0, start, t) ==> next == Times(out, nmerge)
      decreases |es0| - next
    {
      PlaceIs(nmerge, |es|, next, out);
      FullStep(nmerge, env, t0, t, |es|, next, out, widths);
      TimesStep(out, nmerge);
      var merged;
      died, es, merged, ntemps := MergeStep(cmp, unique, env(t), es, out, next, nmerge, ntemps, orig);
      if died {
        return;
      }
      out, next, t, widths := out + 1, next + merged, t + 1, widths + [merged];
    }
  }

  /** One pass: as many merges of nmerge files as there are, then a short one if otherwise
      too many files would be left over for one more merge; the short one merges no more files
      than that takes. */
  method Pass(cmp: Order, unique: bool, nmerge: nat, env: nat -> Round, t0: nat, es0: seq<Entry>, ntemps0: nat,
              ghost orig: seq<Line>)
    returns (died: bool, es: seq<Entry>, ntemps: nat, t: nat, ghost at: Stage, ghost widths: seq<nat>)
    requires TotalPreorder(cmp) && 2 <= nmerge < |es0|
    requires TableOk(cmp, unique, es0, ntemps0, orig)
    ensures StageOk(nmerge, Passing(|es0|, 0, 0)) && StageOk(nmerge, at)
    ensures Leads(nmerge, env, t0, Passing(|es0|, 0, 0), t, at, widths)
    ensures died ==> Dies(nmerge, at, env(t))
    ensures !died ==> at == Start(nmerge, |es|) && |es| < |es0| && TableOk(cmp, unique, es, ntemps, orig)
    ensures !died && AllOpened(nmerge, env, t0, Passing(|es0|, 0, 0), t) ==>
              |es| <= Remaining(|es0|, nmerge) && (|widths| != |es0| / nmerge ==> |es| == Remaining(|es0|, nmerge))
  {
    hide *;
    var out, next;
    died, es, out, next, ntemps, t, widths := FullMerges(cmp, unique, nmerge, env, t0, es0, ntemps0, orig);
    at := Place(nmerge, |es0|, next, out);
    PlaceIs(nmerge, |es0|, next, out);
    if died {
      return;
    }
    var remainder := |es| - next;
    var cheapSlots := CheapSlots(nmerge, out);
    if next == Times(out, nmerge) {
      FullPass(|es|, nmerge, out, remainder);
    }
    if cheapSlots < remainder {
      var nshortmerge := remainder - cheapSlots + 1;   // less than nmerge
      ShortStep(nmerge, env, t0, t, |es0|, next, out, widths);
      var merged;
      died, es, merged, ntemps := MergeStep(cmp, unique, env(t), es, out, next, nshortmerge, ntemps, orig);
      if died {
        return;
      }
      out, next, t, widths := out + 1, next + merged, t + 1, widths + [merged];
      at := Start(nmerge, out + |es| - next);
      StartOk(nmerge, out + |es| - next);
    }
    TableSize(es, out, next);
    es, ntemps := Table(es, out, next), ntemps + out;
  }

  lemma TableSize(es: seq<Entry>, out: nat, next: nat)
    requires out <= next <= |es|
    ensures |Table(es, out, next)| == out + (|es| - next)
  {
  }

  // What merging the whole table writes: what is selected of the stable sort of the original lines.
  lemma WholeTable(cmp: Order, unique: bool, es: seq<Entry>, ntemps: nat, orig: seq<Line>)
    requires TotalPreorder(cmp) && TableOk(cmp, unique, es, ntemps, orig)
    ensures EntriesOk(cmp, es, ntemps)
    ensures Selected(cmp, unique, MergeAll(cmp, Texts(es))) == Selected(cmp, unique, StableSort(cmp, orig))
  {
    var out, all := Selected(cmp, unique, MergeAll(cmp, Texts(es))), StableSort(cmp, orig);
    StableSortCorrect(cmp, orig);
    SelectedClass(cmp, unique, all);
    MergedSurvivors(cmp, unique, es, Line([]));
    hide TotalPreorder, Sorted, Selected, StableSort, MergeAll, Flatten, Trim;
    forall x
      ensures Class(cmp, x, out) == Class(cmp, x, Selected(cmp, unique, all))
    {
      MergedSurvivors(cmp, unique, es, x);
      assert Class(cmp, x, orig) == Class(cmp, x, all);
      assert Trim(unique, Class(cmp, x, Flatten(Texts(es)))) == Trim(unique, Class(cmp, x, orig));
    }
    StableSortUnique(cmp, out, Selected(cmp, unique, all));
  }

  lemma FirstEntries(cmp: Order, unique: bool, es: seq<Entry>, ntemps: nat, count: nat, orig: seq<Line>)
    requires TableOk(cmp, unique, es, ntemps, orig) && count <= |es|
    ensures EntriesOk(cmp, es[..count], ntemps)
  {
  }

  lemma FirstReplaced(cmp: Order, unique: bool, es: seq<Entry>, ntemps: nat, count: nat, e: Entry, orig: seq<Line>)
    requires TotalPreorder(cmp) && TableOk(cmp, unique, es, ntemps, orig) && 0 < count <= |es|
    requires e.temp && e.file.Valid() && e.file.Content() == Selected(cmp, unique, MergeAll(cmp, Texts(es[..count])))
    ensures TableOk(cmp, unique, [e] + es[count..], ntemps - Min(ntemps, count) + 1, orig)
  {
    hide TotalPreorder, TableOk, Selected, MergeAll, Texts, Flatten;
    assert [] + es[..count] + es[count..] == es;
    assert [] + [e] + es[count..] == [e] + es[count..];
    ReplaceKeepsTable(cmp, unique, [], es[..count], es[count..], e, ntemps, orig);
  }

  // Out of descriptors: the first count files become one temporary at the front of the table.
  method MergeFirst(cmp: Order, unique: bool, es: seq<Entry>, ntemps: nat, count: nat, ghost orig: seq<Line>)
    returns (es': seq<Entry>, ntemps': nat)
    requires TotalPreorder(cmp) && TableOk(cmp, unique, es, ntemps, orig) && 0 < count <= |es|
    ensures TableOk(cmp, unique, es', ntemps', orig) && |es'| == |es| - count + 1
  {
    hide *;
    FirstEntries(cmp, unique, es, ntemps, count, orig);
    var temp, zapped := MergeOpen(cmp, unique, es[..count], ntemps);
    FirstReplaced(cmp, unique, es, ntemps, count, temp, orig);
    es', ntemps' := [temp] + es[count..], ntemps - Min(ntemps, count) + 1;
  }

  lemma EndingStarts(nmerge: nat, env: nat -> Round, t0: nat, n: nat)
    requires 2 <= nmerge && n <= nmerge
    ensures StageOk(nmerge, Ending(n)) && Leads(nmerge, env, t0, Ending(n), t0, Ending(n), [])
  {
  }

  // In the final merge, what its guards say; and where it stands after a round that goes on. a temporary could be created.
  lemma EndingStep(nmerge: nat, env: nat -> Round, t0: nat, n0: nat, t: nat, n: nat, widths: seq<nat>)
    requires StageOk(nmerge, Ending(n0)) && StageOk(nmerge, Ending(n))
    requires Leads(nmerge, env, t0, Ending(n0), t, Ending(n), widths)
    ensures var r := env(t);
            var got := Min(r.inputs, n);
            && (Writes(nmerge, Ending(n), r) <==> got == n && r.output == Opened)
            && (Dies(nmerge, Ending(n), r) <==>
                  !(got == n && r.output == Opened) &&
                  ((got == n && r.output == Refused) || got <= 2 || (r.retries > 0 && got - r.retries <= 2) || !r.created))
            && (Ends(nmerge, Ending(n), r) <==> Dies(nmerge, Ending(n), r) || Writes(nmerge, Ending(n), r))
            && (!Ends(nmerge, Ending(n), r) ==>
                  && 2 <= got - 1 - r.retries < n
                  && StageOk(nmerge, Ending(n - (got - 1 - r.retries) + 1))
                  && Leads(nmerge, env, t0, Ending(n0), t + 1, Ending(n - (got - 1 - r.retries) + 1),
                           widths + [got - 1 - r.retries]))
  {
    LeadsOn(nmerge, env, t0, Ending(n0), t, Ending(n), widths);
    hide Leads;
  }

  /** The attempts to create a temporary file, each with one input closed beforehand. */
  method CloseAndCreate(r: Round, got: nat) returns (died: bool, nopened: nat)
    requires got > 2
    ensures died <==> (r.retries > 0 && got - r.retries <= 2) || !r.created
    ensures !died ==> nopened == got - 1 - r.retries
  {
    nopened := got - 1;
    var failures := 0;
    while failures < r.retries
      invariant 0 <= failures <= r.retries && nopened == got - 1 - failures && nopened >= 2
    {
      if nopened <= 2 {
        return true, nopened;
      }
      nopened := nopened - 1;
      failures := failures + 1;
    }
    died := !r.created;
  }

  /** The last part of merge: merge everything into the output if all files and the output
      can be opened; if not, close a file, merge what is open into a temporary, try again. */
  method FinalMerge(cmp: Order, unique: bool, nmerge: nat, env: nat -> Round, t0: nat, es0: seq<Entry>, ntemps0: nat,
                    ghost orig: seq<Line>)
    returns (result: Outcome, t: nat, ghost n: nat, ghost widths: seq<nat>)
    requires TotalPreorder(cmp) && TableOk(cmp, unique, es0, ntemps0, orig) && 2 <= nmerge && |es0| <= nmerge
    ensures StageOk(nmerge, Ending(|es0|)) && StageOk(nmerge, Ending(n))
    ensures Leads(nmerge, env, t0, Ending(|es0|), t, Ending(n), widths)
    ensures result.Done? <==> Writes(nmerge, Ending(n), env(t))
    ensures result.Died? <==> Dies(nmerge, Ending(n), env(t))
    ensures result.Done? ==> result.output == Selected(cmp, unique, StableSort(cmp, orig))
  {
    hide *;
    var es, ntemps := es0, ntemps0;
    t, widths := t0, [];
    EndingStarts(nmerge, env, t0, |es0|);
    while true
      invariant TableOk(cmp, unique, es, ntemps, orig) && StageOk(nmerge, Ending(|es0|)) && StageOk(nmerge, Ending(|es|))
      invariant Leads(nmerge, env, t0, Ending(|es0|), t, Ending(|es|), widths)
      decreases |es|
    {
      EndingStep(nmerge, env, t0, |es0|, t, |es|, widths);
      n := |es|;
      var r := env(t);
      var nopened := OpenInputFiles(r, |es|);
      if nopened == |es| {
        if r.output == Opened {
          WholeTable(cmp, unique, es, ntemps, orig);
          var temp, zapped := MergeOpen(cmp, unique, es, ntemps);
          return Done(temp.file.Content()), t, n, widths;
        }
        if r.output == Refused {
          return Died, t, n, widths;
        }
      }
      if nopened <= 2 {
        return Died, t, n, widths;
      }
      var died;
      died, nopened := CloseAndCreate(r, nopened);
      if died {
        return Died, t, n, widths;
      }
      es, ntemps := MergeFirst(cmp, unique, es, ntemps, nopened, orig);
      t, widths := t + 1, widths + [nopened];
    }
  }

  lemma AtFirst(cmp: Order, unique: bool, es: seq<Entry>, ntemps: nat, orig: seq<Line>)
    requires EntriesOk(cmp, es, ntemps) && ntemps <= |es| && orig == Flatten(Texts(es))
    ensures TableOk(cmp, unique, es, ntemps, orig)
  {
  }

  // What there is to say of a run that is over.
  lemma FateIs(nmerge: nat, env: nat -> Round, s: Stage, t: nat, at: Stage, widths: seq<nat>)
    requires StageOk(nmerge, s) && Leads(nmerge, env, 0, s, t, at, widths) && StageOk(nmerge, at) && Ends(nmerge, at, env(t))
    ensures Dies(nmerge, at, env(t)) <==> !Writes(nmerge, at, env(t))
    ensures Dies(nmerge, at, env(t)) ==> !Smooth(nmerge, env(t))
    ensures Within(widths, nmerge)
    ensures at.Ending? ==> Within(widths + [at.n], nmerge) && Saved(widths + [at.n]) == Count(s) - 1
  {
    LeadsWidths(nmerge, env, 0, s, t, at, widths);
    if Smooth(nmerge, env(t)) {
      SmoothWrites(nmerge, env, at, t);
    }
    if at.Ending? {
      OneMoreMerge(widths, at.n, nmerge);
    }
    hide Leads, Within, Saved;
  }

  /** merge: passes until nmerge files are left, then the final merge.  The answers of the system
      determine whether it writes and what it merges on the way; whatever they are, what it writes
      is the stable merge of the original files, and no merge is of more than nmerge files. */
  method MergeAllFiles(cmp: Order, unique: bool, nmerge: nat, env: nat -> Round, es0: seq<Entry>, ntemps0: nat)
    returns (result: Outcome, t: nat, ghost at: Stage, ghost widths: seq<nat>)
    requires TotalPreorder(cmp) && 2 <= nmerge
    requires EntriesOk(cmp, es0, ntemps0) && ntemps0 <= |es0|
    ensures StageOk(nmerge, Start(nmerge, |es0|)) && StageOk(nmerge, at)
    ensures Leads(nmerge, env, 0, Start(nmerge, |es0|), t, at, widths)
    ensures result.Done? <==> Writes(nmerge, at, env(t))
    ensures result.Died? <==> Dies(nmerge, at, env(t))
    ensures (forall k :: Smooth(nmerge, env(k))) ==> result.Done?
    ensures result.Done? ==> result.output == Selected(cmp, unique, StableSort(cmp, Flatten(Texts(es0))))
    ensures Within(widths, nmerge) && (result.Done? ==> Within(widths + [at.n], nmerge) && Saved(widths + [at.n]) == |es0| - 1)
  {
    ghost var orig := Flatten(Texts(es0));
    var es, ntemps := es0, ntemps0;
    AtFirst(cmp, unique, es, ntemps, orig);
    hide *;
    t, at, widths := 0, Start(nmerge, |es0|), [];
    StartOk(nmerge, |es0|);
    ghost var start := at;
    LeadsNowhere(nmerge, env, 0, start);
    while nmerge < |es|
      invariant TableOk(cmp, unique, es, ntemps, orig) && StageOk(nmerge, start) && at == Start(nmerge, |es|)
      invariant Leads(nmerge, env, 0, start, t, at, widths)
      decreases |es|
    {
      StartOk(nmerge, |es|);
      var died;
      ghost var before, stage, merges := t, at, [];
      died, es, ntemps, t, at, merges := Pass(cmp, unique, nmerge, env, t, es, ntemps, orig);
      LeadsJoin(nmerge, env, 0, start, before, stage, widths, t, at, merges);
      widths := widths + merges;
      if died {
        FateIs(nmerge, env, start, t, at, widths);
        return Died, t, at, widths;
      }
    }
    StartOk(nmerge, |es|);
    ghost var n, before, merges := 0, t, [];
    result, t, n, merges := FinalMerge(cmp, unique, nmerge, env, t, es, ntemps, orig);
    LeadsJoin(nmerge, env, 0, start, before, at, widths, t, Ending(n), merges);
    at, widths := Ending(n), widths + merges;
    FateIs(nmerge, env, start, t, at, widths);
  }
}
