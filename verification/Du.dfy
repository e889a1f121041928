/** du: directory totals from one accumulator per level of the hierarchy. */
module Du {
  import opened Division

  const UINTMAX_MAX: nat := 0xFFFF_FFFF_FFFF_FFFF

  type Uint = n: nat | n <= UINTMAX_MAX

  /** Size and number of inodes, as they are stored: 64 bits each. */
  datatype Info = Info(size: Uint, inodes: Uint)

  /** The same, unbounded. */
  datatype Exact = Exact(size: nat, inodes: nat)

  const NOTHING := Exact(0, 0)

  function Plus(a: Exact, b: Exact): Exact { Exact(a.size + b.size, a.inodes + b.inodes) }

  /** Sizes stick at the greatest value, inode counts wrap around. */
  function Clip(x: Exact): Info {
    Info(if x.size <= UINTMAX_MAX then x.size else UINTMAX_MAX, x.inodes % (UINTMAX_MAX + 1))
  }

  // duinfo_add, in 64 bits
  function Add(a: Info, b: Info): Info {
    var sum := (a.size + b.size) % (UINTMAX_MAX + 1);
    Info(if a.size <= sum then sum else UINTMAX_MAX, (a.inodes + b.inodes) % (UINTMAX_MAX + 1))
  }

  /** Adding what is stored is storing what is added. */
  lemma {:induction false} AddClips(x: Exact, y: Exact)
    ensures Add(Clip(x), Clip(y)) == Clip(Plus(x, y))
  {
    WrapSum(x.inodes, y.inodes, UINTMAX_MAX + 1);
  }

  lemma {:induction false} WrapSum(a: nat, b: nat, m: nat)
    requires m > 0
    ensures (a % m + b % m) % m == (a + b) % m
  {
    var q := a / m + b / m;
    var r := a % m + b % m;
    Distribute(a / m, b / m, m);
    Distribute(q, 1, m);
    assert a == a / m * m + a % m && b == b / m * m + b % m;
    if r < m {
      DivModUnique(a + b, q, r, m);
      DivModUnique(r, 0, r, m);
    } else {
      DivModUnique(a + b, q + 1, r - m, m);
      DivModUnique(r, 1, r - m, m);
    }
  }

  lemma Distribute(x: nat, y: nat, m: nat)
    ensures (x + y) * m == x * m + y * m
  {
  }

  // Sums that no longer fit: the size stays at the greatest value, the number of inodes starts over.
  lemma AddSticks(a: Info, b: Info)
    ensures Add(a, b).size == if a.size + b.size <= UINTMAX_MAX then a.size + b.size else UINTMAX_MAX
    ensures Add(a, b).inodes
            == if a.inodes + b.inodes <= UINTMAX_MAX then a.inodes + b.inodes else a.inodes + b.inodes - UINTMAX_MAX - 1
  {
  }

  lemma AddZero(a: Info)
    ensures Add(a, Info(0, 0)) == a
  {
  }

  // ---------- what is to be reported ----------

  /** What a traversal meets: files, directories with their entries, and what it skips. */
  datatype Entry = File(size: Uint) | Dir(size: Uint, entries: seq<Entry>) | Skipped

  datatype Options = Options(separateDirs: bool, all: bool, inodes: bool, maxDepth: nat, threshold: int)

  function Own(t: Entry): Exact {
    if t.Skipped? then NOTHING else Exact(t.size, 1)
  }

  /** Everything in the hierarchy. */
  function Sum(t: Entry): Exact
    decreases t
  {
    if t.Dir? then Plus(Own(t), SumAll(t.entries, |t.entries|)) else Own(t)
  }

  // The first n of a list of entries.
  function SumAll(ts: seq<Entry>, n: nat): Exact
    requires n <= |ts|
    decreases ts, n
  {
    if n == 0 then NOTHING else Plus(SumAll(ts, n - 1), Sum(ts[n - 1]))
  }

  /** The entries that are no directories. */
  function FilesOnly(ts: seq<Entry>, n: nat): Exact
    requires n <= |ts|
  {
    if n == 0 then NOTHING else Plus(FilesOnly(ts, n - 1), if ts[n - 1].File? then Own(ts[n - 1]) else NOTHING)
  }

  /** What du promises to print for an entry. */
  function Due(o: Options, t: Entry): Exact {
    if t.Dir? && o.separateDirs then Plus(Own(t), FilesOnly(t.entries, |t.entries|)) else Sum(t)
  }

  predicate Shown(o: Options, isDir: bool, level: nat, info: Info) {
    && (((isDir || o.all) && level <= o.maxDepth) || level == 0)
    && var v := if o.inodes then info.inodes else info.size;
       if o.threshold < 0 then v <= -o.threshold else v >= o.threshold
  }

  /** Where an entry is: the number of an argument, then a position in each directory on the way. */
  type Path = seq<nat>

  /** A line of the output. */
  datatype Line = Line(file: Path, info: Info)

  /** The lines printed for a hierarchy at a level, directories behind their entries. */
  function Report(o: Options, t: Entry, level: nat, file: Path): seq<Line>
    decreases t
  {
    if t.Skipped? then []
    else
      (if t.Dir? then ReportAll(o, t.entries, |t.entries|, level + 1, file) else [])
      + (if Shown(o, t.Dir?, level, Clip(Due(o, t))) then [Line(file, Clip(Due(o, t)))] else [])
  }

  function ReportAll(o: Options, ts: seq<Entry>, n: nat, level: nat, dir: Path): seq<Line>
    requires n <= |ts|
    decreases ts, n
  {
    if n == 0 then [] else ReportAll(o, ts, n - 1, level, dir) + Report(o, ts[n - 1], level, dir + [n - 1])
  }

  // ---------- what the accumulators hold ----------

  // What an entry adds to those of its directory, and what the entries below it add.
  function Ent(o: Options, t: Entry): Exact {
    if o.separateDirs && t.Dir? then NOTHING else Own(t)
  }

  function EntAll(o: Options, ts: seq<Entry>, n: nat): Exact
    requires n <= |ts|
  {
    if n == 0 then NOTHING else Plus(EntAll(o, ts, n - 1), Ent(o, ts[n - 1]))
  }

  function Below(o: Options, t: Entry): Exact
    decreases t
  {
    if t.Dir? then Plus(EntAll(o, t.entries, |t.entries|), BelowAll(o, t.entries, |t.entries|)) else NOTHING
  }

  function BelowAll(o: Options, ts: seq<Entry>, n: nat): Exact
    requires n <= |ts|
    decreases ts, n
  {
    if n == 0 then NOTHING else Plus(BelowAll(o, ts, n - 1), Below(o, ts[n - 1]))
  }

  lemma PlusPairs(a: Exact, b: Exact, c: Exact, d: Exact)
    ensures Plus(Plus(a, b), Plus(c, d)) == Plus(Plus(a, c), Plus(b, d))
  {
  }

  lemma PlusNothing(a: Exact)
    ensures Plus(a, NOTHING) == a
  {
  }

  /** Without -S the two accumulators together count everything. */
  lemma {:induction false} AccumulatorsCount(o: Options, ts: seq<Entry>, n: nat)
    requires !o.separateDirs && n <= |ts|
    ensures Plus(EntAll(o, ts, n), BelowAll(o, ts, n)) == SumAll(ts, n)
    decreases ts, n
  {
    hide Ent, Below, Sum, Plus;
    if n > 0 {
      PlusPairs(EntAll(o, ts, n - 1), Ent(o, ts[n - 1]), BelowAll(o, ts, n - 1), Below(o, ts[n - 1]));
      AccumulatorsCount(o, ts, n - 1);
      EntryCounts(o, ts[n - 1]);
    } else {
      PlusNothing(NOTHING);
    }
  }

  lemma {:induction false} EntryCounts(o: Options, t: Entry)
    requires !o.separateDirs
    ensures Plus(Ent(o, t), Below(o, t)) == Sum(t)
    decreases t
  {
    hide EntAll, BelowAll, SumAll, Plus;
    if t.Dir? {
      AccumulatorsCount(o, t.entries, |t.entries|);
    } else {
      PlusNothing(Own(t));
    }
  }

  /** With -S the first accumulator counts the files alone. */
  lemma {:induction false} SeparateCount(o: Options, ts: seq<Entry>, n: nat)
    requires o.separateDirs && n <= |ts|
    ensures EntAll(o, ts, n) == FilesOnly(ts, n)
  {
    if n > 0 {
      SeparateCount(o, ts, n - 1);
    }
  }

  /** What is printed for a directory is its own size and the accumulators of its entries. */
  lemma {:induction false} DueAdds(o: Options, t: Entry)
    requires t.Dir?
    ensures Due(o, t) == Plus(Plus(Own(t), EntAll(o, t.entries, |t.entries|)),
                              if o.separateDirs then NOTHING else BelowAll(o, t.entries, |t.entries|))
  {
    if o.separateDirs {
      SeparateCount(o, t.entries, |t.entries|);
    } else {
      AccumulatorsCount(o, t.entries, |t.entries|);
    }
  }

  datatype Level = Level(ent: Info, subdir: Info)

  const ZERO := Info(0, 0)

  class Totals {
    const o: Options
    var dulvl: array<Level>
    var nAlloc: nat
    var prevLevel: nat
    var total: Info
    var out: seq<Line>

    constructor (o: Options)
      ensures Valid() && fresh(dulvl) && this.o == o && prevLevel == 0 && total == ZERO && out == []
      ensures forall k :: Effective(k) == Level(ZERO, ZERO)
    {
      this.o := o;
      dulvl := new Level[0];
      nAlloc, prevLevel, total, out := 0, 0, ZERO, [];
    }

    ghost predicate Valid()
      reads this
    {
      nAlloc == dulvl.Length && (nAlloc > 0 ==> prevLevel < nAlloc)
    }

    /** The accumulators of a level; those beyond the level last processed count for nothing. */
    ghost function Effective(k: nat): Level
      reads this, dulvl
    {
      if k <= prevLevel && k < dulvl.Length then dulvl[k] else Level(ZERO, ZERO)
    }

    // Makes room for the level and clears the accumulators beyond the one last processed.
    method Descend(level: nat)
      requires Valid() && 0 < nAlloc && prevLevel < level
      modifies this`dulvl, this`nAlloc, dulvl
      ensures nAlloc == dulvl.Length && level < nAlloc && (dulvl == old(dulvl) || fresh(dulvl))
      ensures forall k :: 0 <= k <= level ==> dulvl[k] == if k <= prevLevel then old(dulvl[k]) else Level(ZERO, ZERO)
    {
      if nAlloc <= level {
        var longer := new Level[2 * level];
        forall i | 0 <= i < nAlloc {
          longer[i] := dulvl[i];
        }
        dulvl := longer;
        nAlloc := level * 2;
      }
      for i := prevLevel + 1 to level + 1
        invariant forall k :: 0 <= k < i ==> dulvl[k] == if k <= prevLevel then old(dulvl[k]) else Level(ZERO, ZERO)
        modifies dulvl
      {
        dulvl[i] := Level(ZERO, ZERO);
      }
    }

    // The accumulators for an entry at the level, those beyond it closed.
    method Settle(level: nat) returns (closed: Level)
      requires Valid() && (nAlloc > 0 ==> prevLevel <= level + 1)
      modifies this`dulvl, this`nAlloc, this`prevLevel, dulvl
      ensures Valid() && nAlloc > 0 && prevLevel == level && (dulvl == old(dulvl) || fresh(dulvl))
      ensures closed == old(Effective(level + 1))
      ensures forall k :: 0 <= k < level ==> Effective(k) == old(Effective(k))
      ensures Effective(level).ent == old(Effective(level)).ent
      ensures Effective(level).subdir == Add(Add(old(Effective(level)).subdir, closed.ent), closed.subdir)
    {
      hide Add;
      closed := Level(ZERO, ZERO);
      AddZero(Effective(level).subdir);
      if nAlloc == 0 {
        nAlloc := level + 10;
        dulvl := new Level[nAlloc](_ => Level(ZERO, ZERO));
      } else if level > prevLevel {
        Descend(level);
      } else if level < prevLevel {
        assert level == prevLevel - 1;
        closed := dulvl[prevLevel];
        dulvl[level] := Level(dulvl[level].ent, Add(Add(dulvl[level].subdir, closed.ent), closed.subdir));
      }
      prevLevel := level;
    }

    /** process_file, for an entry that is counted; the entries of a directory come before it. */
    method ProcessFile(isDir: bool, level: nat, file: Path, size: Uint)
      requires Valid() && (nAlloc > 0 ==> prevLevel <= level + 1)
      modifies this`dulvl, this`nAlloc, this`prevLevel, this`total, this`out, dulvl
      ensures Valid() && nAlloc > 0 && prevLevel == level && (dulvl == old(dulvl) || fresh(dulvl))
      ensures var dui, closed, was := Info(size, 1), old(Effective(level + 1)), old(Effective(level));
              && total == Add(old(total), dui)
              && (forall k :: 0 <= k < level ==> Effective(k) == old(Effective(k)))
              && Effective(level) == Level(if o.separateDirs && isDir then was.ent else Add(was.ent, dui),
                                           Add(Add(was.subdir, closed.ent), closed.subdir))
              && var info := if o.separateDirs then Add(dui, closed.ent) else Add(Add(dui, closed.ent), closed.subdir);
                 out == old(out) + if Shown(o, isDir, level, info) then [Line(file, info)] else []
    {
      hide Add, Shown;
      var dui := Info(size, 1);
      var duiToPrint := dui;
      var closed := Settle(level);
      duiToPrint := Add(duiToPrint, closed.ent);
      if !o.separateDirs {
        duiToPrint := Add(duiToPrint, closed.subdir);
      }
      if !(o.separateDirs && isDir) {
        dulvl[level] := Level(Add(dulvl[level].ent, dui), dulvl[level].subdir);
      }
      total := Add(total, dui);
      if Shown(o, isDir, level, duiToPrint) {
        out := out + [Line(file, duiToPrint)];
      }
    }

    // x and y are what the accumulators of the level stand for, z what the total stands for.
    ghost predicate Stands(level: nat, x: Exact, y: Exact, z: Exact)
      reads this, dulvl
    {
      Valid() && (nAlloc > 0 ==> prevLevel <= level) && Effective(level) == Level(Clip(x), Clip(y)) && total == Clip(z)
    }

    /** The traversal of a hierarchy: whatever was there before, what is printed is what is due
        for every entry, and the accumulators of the level grow by what the hierarchy adds. */
    method Walk(t: Entry, level: nat, file: Path, ghost x: Exact, ghost y: Exact, ghost z: Exact)
      requires Stands(level, x, y, z)
      modifies this`dulvl, this`nAlloc, this`prevLevel, this`total, this`out, dulvl
      ensures Stands(level, Plus(x, Ent(o, t)), Plus(y, Below(o, t)), Plus(z, Sum(t)))
      ensures out == old(out) + Report(o, t, level, file)
      ensures forall k :: 0 <= k < level ==> Effective(k) == old(Effective(k))
      ensures dulvl == old(dulvl) || fresh(dulvl)
      decreases t
    {
      hide Add, Shown, Clip, Plus;
      match t
      case Skipped =>
        PlusNothing(x); PlusNothing(y); PlusNothing(z);
      case File(size) =>
        ProcessFile(false, level, file, size);
        FileAdds(o, t, x, y, z);
      case Dir(size, entries) =>
        ghost var total0 := z;
        NothingClips();
        PlusNothing(z);
        var i := 0;
        while i < |entries|
          invariant 0 <= i <= |entries|
          invariant Stands(level + 1, EntAll(o, entries, i), BelowAll(o, entries, i), Plus(z, SumAll(entries, i)))
          invariant out == old(out) + ReportAll(o, entries, i, level + 1, file)
          invariant forall k :: 0 <= k <= level ==> Effective(k) == old(Effective(k))
          invariant dulvl == old(dulvl) || fresh(dulvl)
        {
          PlusTurn(z, SumAll(entries, i), Sum(entries[i]));
          Walk(entries[i], level + 1, file + [i], EntAll(o, entries, i), BelowAll(o, entries, i), Plus(z, SumAll(entries, i)));
          i := i + 1;
        }
        ProcessFile(true, level, file, size);
        DirAdds(o, t, x, y, z);
    }

    /** du_files, for the files named on the command line: the traversal starts afresh. */
    method DuFiles(files: seq<Entry>, ghost x: Exact, ghost y: Exact, ghost z: Exact)
      requires Stands(0, x, y, z) && prevLevel == 0
      modifies this`dulvl, this`nAlloc, this`prevLevel, this`total, this`out, dulvl
      ensures Stands(0, Plus(x, EntAll(o, files, |files|)), Plus(y, BelowAll(o, files, |files|)), Plus(z, SumAll(files, |files|)))
      ensures prevLevel == 0 && out == old(out) + ReportAll(o, files, |files|, 0, [])
    {
      hide Clip, Plus;
      PlusNothing(x); PlusNothing(y); PlusNothing(z);
      var i := 0;
      while i < |files|
        invariant 0 <= i <= |files|
        invariant Stands(0, Plus(x, EntAll(o, files, i)), Plus(y, BelowAll(o, files, i)), Plus(z, SumAll(files, i)))
        invariant out == old(out) + ReportAll(o, files, i, 0, [])
        invariant dulvl == old(dulvl) || fresh(dulvl)
      {
        PlusTurn(x, EntAll(o, files, i), Ent(o, files[i]));
        PlusTurn(y, BelowAll(o, files, i), Below(o, files[i]));
        PlusTurn(z, SumAll(files, i), Sum(files[i]));
        assert [] + [i] == [i];
        Walk(files[i], 0, [i], Plus(x, EntAll(o, files, i)), Plus(y, BelowAll(o, files, i)), Plus(z, SumAll(files, i)));
        i := i + 1;
      }
      prevLevel := 0;
    }
  }

  lemma PlusTurn(a: Exact, b: Exact, c: Exact)
    ensures Plus(a, Plus(b, c)) == Plus(Plus(a, b), c)
  {
  }

  lemma NothingClips()
    ensures Clip(NOTHING) == ZERO
  {
  }

  // A single entry, as it is stored.
  lemma OneClips(size: Uint)
    ensures Clip(Exact(size, 1)) == Info(size, 1)
  {
  }

  lemma {:induction false} FileAdds(o: Options, t: Entry, x: Exact, y: Exact, z: Exact)
    requires t.File?
    ensures Add(Clip(x), Info(t.size, 1)) == Clip(Plus(x, Ent(o, t)))
    ensures Add(Add(Clip(y), ZERO), ZERO) == Clip(Plus(y, Below(o, t)))
    ensures Add(Clip(z), Info(t.size, 1)) == Clip(Plus(z, Sum(t)))
    ensures Add(Info(t.size, 1), ZERO) == Add(Add(Info(t.size, 1), ZERO), ZERO) == Clip(Due(o, t))
  {
    hide Add, Clip, Plus;
    OneClips(t.size);
    AddClips(x, Own(t));
    AddClips(z, Own(t));
    AddZero(Clip(y));
    AddZero(Info(t.size, 1));
    PlusNothing(y);
  }

  lemma {:induction false} DirAdds(o: Options, t: Entry, x: Exact, y: Exact, z: Exact)
    requires t.Dir?
    ensures var ent, subdir := Clip(EntAll(o, t.entries, |t.entries|)), Clip(BelowAll(o, t.entries, |t.entries|));
            && (if o.separateDirs then Clip(x) else Add(Clip(x), Info(t.size, 1))) == Clip(Plus(x, Ent(o, t)))
            && Add(Add(Clip(y), ent), subdir) == Clip(Plus(y, Below(o, t)))
            && Add(Clip(Plus(z, SumAll(t.entries, |t.entries|))), Info(t.size, 1)) == Clip(Plus(z, Sum(t)))
            && (if o.separateDirs then Add(Info(t.size, 1), ent) else Add(Add(Info(t.size, 1), ent), subdir)) == Clip(Due(o, t))
  {
    hide Add, Clip, Plus, EntAll, BelowAll, SumAll;
    var e, b, sum := EntAll(o, t.entries, |t.entries|), BelowAll(o, t.entries, |t.entries|), SumAll(t.entries, |t.entries|);
    OneClips(t.size);
    PlusNothing(x);
    AddClips(x, Own(t));
    AddClips(y, e);
    AddClips(Plus(y, e), b);
    PlusTurn(y, e, b);
    AddClips(Plus(z, sum), Own(t));
    PlusSwap(z, sum, Own(t));
    DueAdds(o, t);
    AddClips(Own(t), e);
    AddClips(Plus(Own(t), e), b);
    PlusNothing(Plus(Own(t), e));
  }

  lemma PlusSwap(a: Exact, b: Exact, c: Exact)
    ensures Plus(Plus(a, b), c) == Plus(a, Plus(c, b))
  {
  }
}
