/** The main loop of mergefps, over files that arrive in buffers of any size. */
module MergeFiles {
  import opened StableSpec
  import opened KWayMerge

  // A file as fillbuf delivers it: some number of non-empty buffers.
  datatype File = File(name: nat, blocks: seq<seq<Line>>) {
    predicate Valid() { forall i :: 0 <= i < |blocks| ==> blocks[i] != [] }

    function Content(): seq<Line> { Flatten(blocks) }
  }

  // An open file with its current line, the lines behind it in its buffer, and the buffers to come.
  datatype Open = Open(name: nat, cur: Line, left: seq<Line>, rest: seq<seq<Line>>) {
    function Remaining(): seq<Line> { [cur] + (left + Flatten(rest)) }

    predicate Valid() { forall i :: 0 <= i < |rest| ==> rest[i] != [] }
  }

  predicate FilesValid(fs: seq<File>) { forall i :: 0 <= i < |fs| ==> fs[i].Valid() }

  predicate OpensValid(os: seq<Open>) { forall i :: 0 <= i < |os| ==> os[i].Valid() }

  function Contents(fs: seq<File>): (r: seq<seq<Line>>)
    ensures |r| == |fs| && forall i :: 0 <= i < |fs| ==> r[i] == fs[i].Content()
  {
    seq(|fs|, i requires 0 <= i < |fs| => fs[i].Content())
  }

  function Currents(os: seq<Open>): (r: seq<Line>)
    ensures |r| == |os| && forall i :: 0 <= i < |os| ==> r[i] == os[i].cur
  {
    seq(|os|, i requires 0 <= i < |os| => os[i].cur)
  }

  function Remainders(os: seq<Open>): (r: seq<seq<Line>>)
    ensures |r| == |os| && forall i :: 0 <= i < |os| ==> r[i] == os[i].Remaining()
  {
    seq(|os|, i requires 0 <= i < |os| => os[i].Remaining())
  }

  function Names(os: seq<Open>): (r: seq<nat>)
    ensures |r| == |os| && forall i :: 0 <= i < |os| ==> r[i] == os[i].name
  {
    seq(|os|, i requires 0 <= i < |os| => os[i].name)
  }

  function FileNames(fs: seq<File>): (r: seq<nat>)
    ensures |r| == |fs| && forall i :: 0 <= i < |fs| ==> r[i] == fs[i].name
  {
    seq(|fs|, i requires 0 <= i < |fs| => fs[i].name)
  }

  // The table once file ord[0] is gone and the files behind it have moved down.
  function Removed(ord: seq<nat>): (r: seq<nat>)
    requires ord != []
    ensures |r| == |ord| - 1
    ensures forall p :: 0 <= p < |r| ==> r[p] == (if ord[p + 1] > ord[0] then ord[p + 1] - 1 else ord[p + 1])
  {
    seq(|ord| - 1, p requires 0 <= p < |ord| - 1 => if ord[p + 1] > ord[0] then ord[p + 1] - 1 else ord[p + 1])
  }

  lemma {:induction false} RemovedCovers(ord: seq<nat>, n: nat)
    requires ord != [] && Covers(ord, n)
    ensures Covers(Removed(ord), n - 1)
  {
    var r, o := Removed(ord), ord[0];
    forall x | 0 <= x < n - 1
      ensures x in r
    {
      var y := if x >= o then x + 1 else x;
      assert y in ord;
      var p :| 0 <= p < n && ord[p] == y;
      assert r[p - 1] == x;
    }
  }

  lemma {:induction false} RemovedInOrder(cmp: Order, cur: seq<Line>, ord: seq<nat>)
    requires ord != [] && Covers(ord, |cur|) && InOrder(cmp, cur, ord)
    ensures Covers(Removed(ord), |cur| - 1) && InOrder(cmp, Without(cur, ord[0]), Removed(ord))
  {
    RemovedCovers(ord, |cur|);
    var r, c := Removed(ord), Without(cur, ord[0]);
    forall p, q | 0 <= p < q < |r|
      ensures Precedes(cmp, c, r[p], r[q])
    {
      assert Precedes(cmp, cur, ord[p + 1], ord[q + 1]);
    }
  }

  // In an ordered table the first entry precedes every other file.
  lemma {:induction false} FirstPrecedes(cmp: Order, cur: seq<Line>, ord: seq<nat>, x: nat)
    requires ord != [] && Covers(ord, |cur|) && InOrder(cmp, cur, ord) && x < |cur| && x != ord[0]
    ensures Precedes(cmp, cur, ord[0], x)
  {
    assert x in ord;
    var p :| 0 <= p < |ord| && ord[p] == x;
  }

  // A new current line for file ord[0] does not disturb the others.
  lemma {:induction false} OthersInOrder(cmp: Order, cur: seq<Line>, cur': seq<Line>, ord: seq<nat>)
    requires ord != [] && Covers(ord, |cur|) && InOrder(cmp, cur, ord)
    requires |cur'| == |cur| && forall i :: 0 <= i < |cur| && i != ord[0] ==> cur'[i] == cur[i]
    ensures InOrder(cmp, cur', ord[1..])
  {
    var rest := ord[1..];
    forall p, q | 0 <= p < q < |rest|
      ensures Precedes(cmp, cur', rest[p], rest[q])
    {
      assert Precedes(cmp, cur, ord[p + 1], ord[q + 1]);
    }
  }

  lemma {:induction false} TakeSmallest(cmp: Order, os: seq<Open>, ord: seq<nat>)
    requires TotalPreorder(cmp) && os != [] && TableOk(cmp, os, ord)
    ensures MergeAll(cmp, Remainders(os)) == [os[ord[0]].cur] + AfterTake(cmp, os, ord)
  {
    var o, fs := ord[0], Remainders(os);
    forall i | 0 <= i < |fs| && i != o
      ensures Before(cmp, fs[o][0], o, fs[i][0], i)
    {
      FirstPrecedes(cmp, Currents(os), ord, i);
    }
    MergeAllTake(cmp, fs, o);
    assert fs[o][1..] == os[o].left + Flatten(os[o].rest);
  }

  // fillbuf and "cur - 1": the file after its current line has gone, if it has another.
  function Advanced(o: Open): Open
    requires o.Valid() && (o.left != [] || o.rest != [])
  {
    if o.left != [] then Open(o.name, o.left[0], o.left[1..], o.rest)
    else Open(o.name, o.rest[0][0], o.rest[0][1..], o.rest[1..])
  }

  lemma {:induction false} AdvancedRemaining(o: Open)
    requires o.Valid() && (o.left != [] || o.rest != [])
    ensures Advanced(o).Remaining() == o.left + Flatten(o.rest)
    ensures Advanced(o).Valid()
  {
    if o.left != [] {
      assert o.left == [o.left[0]] + o.left[1..];
    } else {
      assert o.rest[0] == [o.rest[0][0]] + o.rest[0][1..];
      assert o.left + Flatten(o.rest) == o.rest[0] + Flatten(o.rest[1..]);
    }
  }

  // The first n names, or all of them: the caller's count of temporaries may be too high.
  function Front(names: seq<nat>, n: nat): seq<nat> {
    if n <= |names| then names[..n] else names
  }

  // zaptemp has been called for the temporaries that are gone, and for nothing else.
  ghost predicate Zapped(all: seq<nat>, total: nat, zapped: seq<nat>, names: seq<nat>, ntemps: nat) {
    multiset(zapped) + multiset(Front(names, ntemps)) == multiset(Front(all, total))
  }

  lemma {:induction false} FrontWithout(names: seq<nat>, n: nat, i: nat)
    requires i < |names|
    ensures i < n ==> multiset(Front(names, n)) == multiset([names[i]]) + multiset(Front(Without(names, i), n - 1))
    ensures i >= n ==> Front(Without(names, i), n) == Front(names, n)
  {
    var k := if n <= |names| then n else |names|;
    if i < k {
      SplitAround(names, k, i);
      assert Front(Without(names, i), n - 1) == names[..i] + names[i + 1..k];
    }
  }

  lemma {:induction false} SplitAround(names: seq<nat>, k: nat, i: nat)
    requires i < k <= |names|
    ensures multiset(names[..k]) == multiset([names[i]]) + multiset(names[..i] + names[i + 1..k])
    ensures k == |names| ==> names[..k] == names
  {
    assert names[..k] == names[..i] + [names[i]] + names[i + 1..k];
  }

  lemma {:induction false} ZapOne(all: seq<nat>, total: nat, zapped: seq<nat>, names: seq<nat>, ntemps: nat, i: nat)
    requires i < |names| && Zapped(all, total, zapped, names, ntemps)
    ensures i < ntemps ==> Zapped(all, total, zapped + [names[i]], Without(names, i), ntemps - 1)
    ensures i >= ntemps ==> Zapped(all, total, zapped, Without(names, i), ntemps)
  {
    FrontWithout(names, ntemps, i);
    hide Front, Without;
  }

  // What -u has written, with the line it holds back.
  function Kept(unique: bool, written: seq<Line>, saved: seq<Line>): seq<Line> {
    if unique then written + saved else written
  }

  ghost function Selected(cmp: Order, unique: bool, s: seq<Line>): seq<Line> {
    if unique then Uniq(cmp, s) else s
  }

  function Opened(f: File): Open
    requires f.blocks != [] && f.Valid()
  {
    Open(f.name, f.blocks[0][0], f.blocks[0][1..], f.blocks[1..])
  }

  lemma OpenedRemaining(f: File)
    requires f.blocks != [] && f.Valid()
    ensures Opened(f).Remaining() == f.Content() && Opened(f).Valid() && Opened(f).name == f.name
  {
    var b := f.blocks[0];
    assert b == [b[0]] + b[1..];
  }

  // All files of the merge in their order: those already opened, and those still to be.
  ghost function Pending(os: seq<Open>, fs: seq<File>): seq<seq<Line>> { Remainders(os) + Contents(fs) }

  ghost function AllNames(os: seq<Open>, fs: seq<File>): seq<nat> {
    Names(os) + FileNames(fs)
  }

  lemma {:induction false} ReadOne(os: seq<Open>, fs: seq<File>)
    requires fs != [] && fs[0].Valid() && fs[0].blocks != [] && OpensValid(os)
    ensures OpensValid(os + [Opened(fs[0])])
    ensures Pending(os + [Opened(fs[0])], fs[1..]) == Pending(os, fs)
    ensures AllNames(os + [Opened(fs[0])], fs[1..]) == AllNames(os, fs)
  {
    OpenedRemaining(fs[0]);
    hide Flatten, Opened, Open.Remaining, File.Content;
  }

  lemma {:induction false} SkipPending(cmp: Order, os: seq<Open>, fs: seq<File>)
    requires fs != [] && fs[0].blocks == []
    ensures MergeAll(cmp, Pending(os, fs[1..])) == MergeAll(cmp, Pending(os, fs))
  {
    MergeAllDrop(cmp, Pending(os, fs), |os|);
    hide MergeAll, Open.Remaining;
    assert Without(Pending(os, fs), |os|) == Pending(os, fs[1..]);
  }

  lemma {:induction false} SkipName(os: seq<Open>, fs: seq<File>)
    requires fs != []
    ensures |AllNames(os, fs)| == |os| + |fs| && AllNames(os, fs)[|os|] == fs[0].name
    ensures Without(AllNames(os, fs), |os|) == AllNames(os, fs[1..])
  {
  }

  lemma {:induction false} SkipOne(cmp: Order, os: seq<Open>, fs: seq<File>, all: seq<nat>, total: nat,
                                   zapped: seq<nat>, ntemps: nat)
    requires fs != [] && fs[0].blocks == []
    requires Zapped(all, total, zapped, AllNames(os, fs), ntemps)
    ensures MergeAll(cmp, Pending(os, fs[1..])) == MergeAll(cmp, Pending(os, fs))
    ensures Zapped(all, total, if |os| < ntemps then zapped + [fs[0].name] else zapped, AllNames(os, fs[1..]),
                   if |os| < ntemps then ntemps - 1 else ntemps)
  {
    hide *;
    SkipPending(cmp, os, fs);
    SkipName(os, fs);
    ZapOne(all, total, zapped, AllNames(os, fs), ntemps, |os|);
  }

  lemma {:induction false} AllPending(os: seq<Open>, fs: seq<File>)
    ensures Pending([], fs) == Contents(fs) && Pending(os, []) == Remainders(os)
    ensures AllNames([], fs) == FileNames(fs) && AllNames(os, []) == Names(os)
  {
  }

  /** The files that have a line, in their order, each at its first line. */
  function AtFirstLines(fs: seq<File>): seq<Open>
    requires FilesValid(fs)
  {
    if fs == [] then []
    else (if fs[0].blocks != [] then [Opened(fs[0])] else []) + AtFirstLines(fs[1..])
  }

  lemma Joins<T>(a: seq<T>, b: seq<T>, d: seq<T>)
    ensures a + (b + d) == a + b + d && a + [] == a
  {
  }

  lemma {:induction false} AtFirst(os: seq<Open>, fs: seq<File>)
    requires FilesValid(fs)
    ensures fs == [] ==> AtFirstLines(fs) == []
    ensures fs != [] ==> FilesValid(fs[1..]) && fs[0].Valid()
    ensures fs != [] && fs[0].blocks == [] ==> os + AtFirstLines(fs) == os + AtFirstLines(fs[1..])
    ensures fs != [] && fs[0].blocks != [] ==> os + AtFirstLines(fs) == os + [Opened(fs[0])] + AtFirstLines(fs[1..])
  {
    if fs != [] {
      assert fs[0].Valid();
      var more := if fs[0].blocks != [] then [Opened(fs[0])] else [];
      var rest := AtFirstLines(fs[1..]);
      assert AtFirstLines(fs) == more + rest;
      hide AtFirstLines, Opened, File.Valid, FilesValid;
      Joins(os, more, rest);
    }
  }

  /** Read the first buffer of each file; files without a line are closed at once. */
  method ReadFirst(cmp: Order, files: seq<File>, ntemps0: nat) returns (os: seq<Open>, ntemps: nat, zapped: seq<nat>)
    requires FilesValid(files)
    ensures os == AtFirstLines(files) && OpensValid(os)
    ensures MergeAll(cmp, Remainders(os)) == MergeAll(cmp, Contents(files))
    ensures Zapped(FileNames(files), ntemps0, zapped, Names(os), ntemps)
  {
    os, ntemps, zapped := [], ntemps0, [];
    var fs := files;
    ghost var all := FileNames(files);
    NothingZapped(all, ntemps0);
    AllPending([], files);
    assert [] + AtFirstLines(files) == AtFirstLines(files);
    assert OpensValid(os);
    hide *;
    while fs != []
      invariant FilesValid(fs) && OpensValid(os) && os + AtFirstLines(fs) == AtFirstLines(files)
      invariant MergeAll(cmp, Pending(os, fs)) == MergeAll(cmp, Contents(files))
      invariant Zapped(all, ntemps0, zapped, AllNames(os, fs), ntemps)
      decreases |fs|
    {
      os, ntemps, zapped := ReadFile(cmp, os, fs, all, ntemps0, zapped, ntemps);
      fs := fs[1..];
    }
    AtFirst(os, fs);
    Joins(os, [], []);
    AllPending(os, []);
  }

  method ReadFile(cmp: Order, os: seq<Open>, fs: seq<File>, ghost all: seq<nat>, ghost total: nat, zapped: seq<nat>,
                  ntemps: nat)
    returns (os': seq<Open>, ntemps': nat, zapped': seq<nat>)
    requires fs != [] && FilesValid(fs) && OpensValid(os)
    requires Zapped(all, total, zapped, AllNames(os, fs), ntemps)
    ensures OpensValid(os') && FilesValid(fs[1..])
    ensures os' + AtFirstLines(fs[1..]) == os + AtFirstLines(fs)
    ensures MergeAll(cmp, Pending(os', fs[1..])) == MergeAll(cmp, Pending(os, fs))
    ensures Zapped(all, total, zapped', AllNames(os', fs[1..]), ntemps')
  {
    hide *;
    AtFirst(os, fs);
    if fs[0].blocks != [] {
      ReadOne(os, fs);
      os', ntemps', zapped' := os + [Opened(fs[0])], ntemps, zapped;
    } else {
      SkipOne(cmp, os, fs, all, total, zapped, ntemps);
      os' := os;
      ntemps' := if |os| < ntemps then ntemps - 1 else ntemps;
      zapped' := if |os| < ntemps then zapped + [fs[0].name] else zapped;
    }
  }

  lemma NothingZapped(all: seq<nat>, total: nat)
    ensures Zapped(all, total, [], all, total)
  {
  }

  /** Write a line, or under -u hold back the first line of each run of equal ones. */
  method Select(cmp: Order, unique: bool, written: seq<Line>, saved: seq<Line>, x: Line, ghost emitted: seq<Line>)
    returns (written': seq<Line>, saved': seq<Line>)
    requires |saved| <= 1 && (saved == [] <==> !unique || emitted == [])
    requires Kept(unique, written, saved) == Selected(cmp, unique, emitted)
    ensures |saved'| <= 1 && (saved' == [] <==> !unique)
    ensures Kept(unique, written', saved') == Selected(cmp, unique, emitted + [x])
  {
    written', saved' := written, saved;
    if unique {
      UniqSnoc(cmp, emitted, x);
      if saved' != [] && cmp(saved'[0], x) != 0 {
        written' := written' + saved';
        saved' := [];
      }
      if saved' == [] {
        saved' := [x];
      }
    } else {
      written' := written' + [x];
    }
  }

  lemma {:induction false} StepRemainders(os: seq<Open>, o: nat)
    requires o < |os| && os[o].Valid() && (os[o].left != [] || os[o].rest != [])
    ensures Remainders(os[o := Advanced(os[o])]) == Remainders(os)[o := os[o].left + Flatten(os[o].rest)]
    ensures Advanced(os[o]).Valid() && Names(os[o := Advanced(os[o])]) == Names(os)
    ensures forall i :: 0 <= i < |os| && i != o ==> Currents(os[o := Advanced(os[o])])[i] == Currents(os)[i]
  {
    AdvancedRemaining(os[o]);
    assert Advanced(os[o]).name == os[o].name;
  }

  lemma {:induction false} DropRemainders(cmp: Order, os: seq<Open>, o: nat)
    requires o < |os| && os[o].left == [] && os[o].rest == []
    ensures MergeAll(cmp, Remainders(Without(os, o)))
            == MergeAll(cmp, Remainders(os)[o := os[o].left + Flatten(os[o].rest)])
    ensures Names(Without(os, o)) == Without(Names(os), o)
    ensures Currents(Without(os, o)) == Without(Currents(os), o)
  {
    var fs := Remainders(os)[o := []];
    MergeAllDrop(cmp, fs, o);
    assert Remainders(Without(os, o)) == Without(fs, o);
  }

  ghost predicate TableOk(cmp: Order, os: seq<Open>, ord: seq<nat>) {
    && Covers(ord, |os|) && InOrder(cmp, Currents(os), ord)
    && OpensValid(os)
  }

  // What is left of the files once the first one in the table has given its line.
  ghost function AfterTake(cmp: Order, os: seq<Open>, ord: seq<nat>): seq<Line>
    requires ord != [] && ord[0] < |os|
  {
    MergeAll(cmp, Remainders(os)[ord[0] := os[ord[0]].left + Flatten(os[ord[0]].rest)])
  }

  method Advance(cmp: Order, os: seq<Open>, ord: seq<nat>) returns (os': seq<Open>, ord': seq<nat>)
    requires TotalPreorder(cmp) && os != [] && TableOk(cmp, os, ord)
    requires os[ord[0]].left != [] || os[ord[0]].rest != []
    ensures TableOk(cmp, os', ord') && Names(os') == Names(os)
    ensures MergeAll(cmp, Remainders(os')) == AfterTake(cmp, os, ord)
  {
    hide TotalPreorder, MergeAll, Flatten, Precedes;
    StepRemainders(os, ord[0]);
    os' := os[ord[0] := Advanced(os[ord[0]])];
    OthersInOrder(cmp, Currents(os), Currents(os'), ord);
    hide Advanced, Remainders, Names;
    ord' := Reinsert(cmp, Currents(os'), ord);
  }

  method Drop(cmp: Order, os: seq<Open>, ord: seq<nat>) returns (os': seq<Open>, ord': seq<nat>)
    requires TotalPreorder(cmp) && os != [] && TableOk(cmp, os, ord)
    requires os[ord[0]].left == [] && os[ord[0]].rest == []
    ensures TableOk(cmp, os', ord') && Names(os') == Without(Names(os), ord[0])
    ensures MergeAll(cmp, Remainders(os')) == AfterTake(cmp, os, ord)
  {
    hide TotalPreorder, MergeAll, Flatten, Precedes;
    DropRemainders(cmp, os, ord[0]);
    RemovedInOrder(cmp, Currents(os), ord);
    hide Remainders, Names;
    os' := Without(os, ord[0]);
    ord' := Removed(ord);
  }

  /** mergefps: write the merge of the files, and remove the temporaries among them. */
  method MergeFps(cmp: Order, unique: bool, files: seq<File>, ntemps0: nat) returns (out: seq<Line>, zapped: seq<nat>)
    requires TotalPreorder(cmp)
    requires FilesValid(files)
    ensures out == Selected(cmp, unique, MergeAll(cmp, Contents(files)))
    ensures multiset(zapped) == multiset(Front(FileNames(files), ntemps0))
  {
    hide *;
    var os, ntemps, zaps := ReadFirst(cmp, files, ntemps0);
    var ord := SetUpOrd(cmp, Currents(os));
    assert TableOk(cmp, os, ord) by { TableMade(cmp, os, ord); }
    var written, saved: seq<Line> := [], [];
    ghost var emitted: seq<Line> := [];
    NothingKept(cmp, unique);
    while os != []
      invariant TableOk(cmp, os, ord)
      invariant emitted + MergeAll(cmp, Remainders(os)) == MergeAll(cmp, Contents(files))
      invariant |saved| <= 1 && (saved == [] <==> !unique || emitted == [])
      invariant Kept(unique, written, saved) == Selected(cmp, unique, emitted)
      invariant Zapped(FileNames(files), ntemps0, zaps, Names(os), ntemps)
      decreases |MergeAll(cmp, Remainders(os))|
    {
      FirstInRange(cmp, os, ord);
      var o := ord[0];
      TakeSmallest(cmp, os, ord);
      written, saved := Select(cmp, unique, written, saved, os[o].cur, emitted);
      emitted := emitted + [os[o].cur];
      if os[o].left != [] || os[o].rest != [] {
        os, ord := Advance(cmp, os, ord);
      } else {
        ZapOne(FileNames(files), ntemps0, zaps, Names(os), ntemps, o);
        if o < ntemps {
          ntemps, zaps := ntemps - 1, zaps + [os[o].name];
        }
        os, ord := Drop(cmp, os, ord);
      }
    }
    MergeAllNil(cmp);
    assert emitted + [] == emitted;
    AllKept(unique, written, saved);
    AllZapped(FileNames(files), ntemps0, zaps, Names(os), ntemps);
    out, zapped := written + saved, zaps;
  }

  lemma TableMade(cmp: Order, os: seq<Open>, ord: seq<nat>)
    requires Covers(ord, |Currents(os)|) && InOrder(cmp, Currents(os), ord)
    requires OpensValid(os)
    ensures TableOk(cmp, os, ord)
  {
  }

  lemma FirstInRange(cmp: Order, os: seq<Open>, ord: seq<nat>)
    requires os != [] && TableOk(cmp, os, ord)
    ensures ord != [] && ord[0] < |os| && |Names(os)| == |os| && Names(os)[ord[0]] == os[ord[0]].name
  {
  }

  lemma AllZapped(all: seq<nat>, total: nat, zapped: seq<nat>, names: seq<nat>, ntemps: nat)
    requires Zapped(all, total, zapped, names, ntemps) && names == []
    ensures multiset(zapped) == multiset(Front(all, total))
  {
  }

  lemma AllKept(unique: bool, written: seq<Line>, saved: seq<Line>)
    requires !unique ==> saved == []
    ensures written + saved == Kept(unique, written, saved)
  {
  }

  lemma NothingKept(cmp: Order, unique: bool)
    ensures Kept(unique, [], []) == Selected(cmp, unique, [])
  {
    if unique {
      assert Uniq(cmp, []) == [];
    }
  }

  lemma {:induction false} MergeAllNil(cmp: Order)
    ensures MergeAll(cmp, Remainders([])) == []
  {
  }
}
