/**
 The `/proc/stat` accumulator behind CPU utilisation. Each line is split
 into white-space separated fields; a line labelled `cpu` adds to the
 aggregate counters and a line labelled `cpuN` adds to core N. Every later
 field that parses as an unsigned 64-bit decimal is added to the total
 (wrapping modulo 2^64, like Go's uint64), and field 4, the idle column of
 proc(5), also becomes the idle value.
 */
module Cpu {
  import opened Wrappers
  import Text

  /** The counters of one line kind: total jiffies and idle jiffies (Go uint64). */
  datatype UtilStats = UtilStats(total: nat, idle: nat)

  const ZeroStats := UtilStats(0, 0)

  predicate Valid(u: UtilStats) {
    u.total < Text.U64 && u.idle < Text.U64
  }

  /** What a line's label says: the aggregate `cpu` line, a `cpuN` line, or anything else. */
  datatype LineKind = Aggregate | Core(index: nat) | Other

  /** The label tests `^(cpu){1}$` and `^(cpu\d+){1}$` on the first field. */
  function KindOf(fields: seq<string>): LineKind {
    if |fields| == 0 then Other
    else if fields[0] == "cpu" then Aggregate
    else if |fields[0]| > 3 && fields[0][..3] == "cpu" && Text.AllDigits(fields[0][3..]) then
      Core(Text.DigitsValue(fields[0][3..]))
    else Other
  }

  /**
   Only the exact label `cpu` is the aggregate line, and a core line's label
   is `cpu` followed by a non-empty run of digits whose value is the core.
   */
  lemma KindOfMeaning(fields: seq<string>)
    ensures KindOf(fields) == Aggregate <==> |fields| > 0 && fields[0] == "cpu"
    ensures KindOf(fields).Core? ==>
      |fields| > 0 && |fields[0]| > 3 && "cpu" <= fields[0] &&
      Text.AllDigits(fields[0][3..]) && Text.DigitsValue(fields[0][3..]) == KindOf(fields).index
  {
    if |fields| > 0 && |fields[0]| > 3 && fields[0][..3] == "cpu" {
      assert "cpu" <= fields[0];
    }
  }

  /**
   The labels the kernel writes: `cpu` is the aggregate line, and `cpu`
   followed by a core number (leading zeros allowed) is that core's line.
   */
  lemma KindOfLabels(digits: string, rest: seq<string>)
    requires digits != "" && Text.AllDigits(digits)
    ensures KindOf(["cpu"] + rest) == Aggregate
    ensures KindOf(["cpu" + digits] + rest) == Core(Text.DigitsValue(digits))
  {
    var tag := "cpu" + digits;
    assert tag[..3] == "cpu" && tag[3..] == digits;
    assert tag != "cpu" by { assert |tag| > 3; }
    assert (["cpu" + digits] + rest)[0] == tag;
  }

  /** The label of core n as the kernel prints it names core n. */
  lemma KindOfCoreNumber(n: nat, rest: seq<string>)
    ensures KindOf(["cpu" + Text.NatToString(n)] + rest) == Core(n)
  {
    KindOfLabels(Text.NatToString(n), rest);
  }

  function Wrap64(x: nat): nat {
    x % Text.U64
  }

  lemma {:induction false} ModShift(q: nat, z: nat)
    ensures (q * Text.U64 + z) % Text.U64 == z % Text.U64
    decreases q
  {
    if q > 0 {
      ModShift(q - 1, z);
      assert q * Text.U64 + z == (q - 1) * Text.U64 + z + Text.U64;
    }
  }

  /** Adding to a wrapped value wraps like adding to the unwrapped one. */
  lemma WrapAdd(x: nat, y: nat)
    ensures Wrap64(Wrap64(x) + y) == Wrap64(x + y)
  {
    var q := x / Text.U64;
    assert x == q * Text.U64 + x % Text.U64;
    ModShift(q, x % Text.U64 + y);
    ModShift(q, 0);
  }

  /** The value field `i` contributes: its number if it parses, nothing otherwise. */
  function ValueAt(fields: seq<string>, i: nat): nat
    requires i < |fields|
  {
    match Text.ParseUint(fields[i])
    case Some(v) => v
    case None => 0
  }

  /** Unbounded sum of what fields i.. contribute. */
  function FieldSum(fields: seq<string>, i: nat): nat
    requires i <= |fields|
    decreases |fields| - i
  {
    if i == |fields| then 0 else ValueAt(fields, i) + FieldSum(fields, i + 1)
  }

  /** The idle column, field 4, when the line has one and it parses. */
  function IdleField(fields: seq<string>): Option<nat> {
    if |fields| > 4 then Text.ParseUint(fields[4]) else None
  }

  /** One pass of the inner loop: add field `i` if it parses; at index 4 it is also the idle value. */
  function AddField(acc: UtilStats, fields: seq<string>, i: nat): UtilStats
    requires 1 <= i < |fields|
  {
    match Text.ParseUint(fields[i])
    case None => acc
    case Some(v) => UtilStats(Wrap64(acc.total + v), if i == 4 then v else acc.idle)
  }

  /**
   The inner loop from field `i` on: the total grows (mod 2^64) by exactly the
   values of the fields that parse, unparseable fields contributing nothing;
   idle becomes field 4's value when that field is still ahead and parses,
   and otherwise keeps its previous value.
   */
  function AddFieldsFrom(acc: UtilStats, fields: seq<string>, i: nat): (r: UtilStats)
    requires Valid(acc)
    requires 1 <= i <= |fields|
    ensures Valid(r)
    ensures r.total == Wrap64(acc.total + FieldSum(fields, i))
    ensures r.idle == if i <= 4 && IdleField(fields).Some? then IdleField(fields).value else acc.idle
    decreases |fields| - i
  {
    if i == |fields| then acc
    else
      var next := AddField(acc, fields, i);
      WrapAdd(acc.total + ValueAt(fields, i), FieldSum(fields, i + 1));
      AddFieldsFrom(next, fields, i + 1)
  }

  /** The fields after the label, accumulated into `acc`. */
  function AccumulateLine(acc: UtilStats, fields: seq<string>): UtilStats
    requires Valid(acc) && |fields| >= 1
  {
    AddFieldsFrom(acc, fields, 1)
  }

  /** The aggregate counters and one counter pair per core. */
  datatype Stats = Stats(total: UtilStats, cores: seq<UtilStats>)

  predicate ValidStats(st: Stats) {
    Valid(st.total) && forall k :: 0 <= k < |st.cores| ==> Valid(st.cores[k])
  }

  /** A `cpuN` line must name an existing core: the source indexes `cores[N]` without a check. */
  predicate CoreInRange(line: string, numCpu: nat) {
    var kind := KindOf(Text.Fields(line));
    kind.Core? ==> kind.index < numCpu
  }

  /**
   One line of the outer loop. A line with no fields or another label leaves
   everything as it was; the `cpu` line changes only the aggregate; a `cpuN`
   line changes only core N.
   */
  function Step(st: Stats, line: string): (r: Stats)
    requires ValidStats(st) && CoreInRange(line, |st.cores|)
    ensures ValidStats(r) && |r.cores| == |st.cores|
    ensures KindOf(Text.Fields(line)) == Other ==> r == st
    ensures KindOf(Text.Fields(line)) == Aggregate ==>
      r.cores == st.cores && r.total == AccumulateLine(st.total, Text.Fields(line))
    ensures KindOf(Text.Fields(line)).Core? ==>
      var n := KindOf(Text.Fields(line)).index;
      r.total == st.total && r.cores[n] == AccumulateLine(st.cores[n], Text.Fields(line)) &&
      forall k :: 0 <= k < |st.cores| && k != n ==> r.cores[k] == st.cores[k]
  {
    var fields := Text.Fields(line);
    match KindOf(fields)
    case Other => st
    case Aggregate => st.(total := AccumulateLine(st.total, fields))
    case Core(n) => st.(cores := st.cores[n := AccumulateLine(st.cores[n], fields)])
  }

  // ---------------------------------------------------------------------------
  // Reference: what the counters of one line kind must end up holding.

  /** What one line adds to the counters of `kind`. */
  function LineSum(line: string, kind: LineKind): nat {
    var fields := Text.Fields(line);
    if KindOf(fields) == kind && |fields| >= 1 then FieldSum(fields, 1) else 0
  }

  /** Unbounded sum of the parsed values over all lines of `kind`. */
  function SumFor(lines: seq<string>, kind: LineKind): nat {
    if |lines| == 0 then 0 else SumFor(lines[..|lines| - 1], kind) + LineSum(lines[|lines| - 1], kind)
  }

  /** The idle column of the last line of `kind` whose idle column parses; 0 if none. */
  function IdleFor(lines: seq<string>, kind: LineKind): nat {
    if |lines| == 0 then 0
    else
      var fields := Text.Fields(lines[|lines| - 1]);
      if KindOf(fields) == kind && IdleField(fields).Some? then IdleField(fields).value
      else IdleFor(lines[..|lines| - 1], kind)
  }

  function Expected(lines: seq<string>, kind: LineKind): UtilStats {
    UtilStats(Wrap64(SumFor(lines, kind)), IdleFor(lines, kind))
  }

  lemma {:induction false} IdleForBound(lines: seq<string>, kind: LineKind)
    ensures IdleFor(lines, kind) < Text.U64
    decreases |lines|
  {
    if |lines| > 0 {
      IdleForBound(lines[..|lines| - 1], kind);
    }
  }

  /** Processing line i moves the counters of every kind from lines[..i] to lines[..i + 1]. */
  lemma ExpectedStep(lines: seq<string>, i: nat, kind: LineKind)
    requires i < |lines|
    ensures Valid(Expected(lines[..i], kind))
    ensures Expected(lines[..i + 1], kind) ==
      var fields := Text.Fields(lines[i]);
      if KindOf(fields) == kind && |fields| >= 1 then AccumulateLine(Expected(lines[..i], kind), fields)
      else Expected(lines[..i], kind)
  {
    var fields := Text.Fields(lines[i]);
    assert lines[..i + 1][..i] == lines[..i];
    assert lines[..i + 1][i] == lines[i];
    IdleForBound(lines[..i], kind);
    if KindOf(fields) == kind && |fields| >= 1 {
      WrapAdd(SumFor(lines[..i], kind), FieldSum(fields, 1));
    }
  }

  /**
   calculate: the aggregate counters hold the wrapped sum of the parsed
   fields of every `cpu` line and the idle column of the last `cpu` line that
   has one; core k likewise for the `cpuk` lines. There is one entry per
   core.
   */
  method Calculate(lines: seq<string>, numCpu: nat) returns (total: UtilStats, cores: seq<UtilStats>)
    requires numCpu < 0x8000_0000_0000_0000
    requires forall i :: 0 <= i < |lines| ==> CoreInRange(lines[i], numCpu)
    ensures |cores| == numCpu
    ensures total == Expected(lines, Aggregate)
    ensures forall k :: 0 <= k < numCpu ==> cores[k] == Expected(lines, Core(k))
  {
    var st := Stats(ZeroStats, seq(numCpu, _ => ZeroStats));
    for i := 0 to |lines|
      invariant ValidStats(st) && |st.cores| == numCpu
      invariant st.total == Expected(lines[..i], Aggregate)
      invariant forall k :: 0 <= k < numCpu ==> st.cores[k] == Expected(lines[..i], Core(k))
    {
      ExpectedStep(lines, i, Aggregate);
      forall k | 0 <= k < numCpu
        ensures Expected(lines[..i + 1], Core(k)) ==
          var fields := Text.Fields(lines[i]);
          if KindOf(fields) == Core(k) && |fields| >= 1 then AccumulateLine(Expected(lines[..i], Core(k)), fields)
          else Expected(lines[..i], Core(k))
      {
        ExpectedStep(lines, i, Core(k));
      }
      st := Step(st, lines[i]);
    }
    assert lines[..|lines|] == lines;
    total := st.total;
    cores := st.cores;
  }

  // ---------------------------------------------------------------------------
  // Idle never exceeds total

  lemma {:induction false} IdleWithinFieldSum(fields: seq<string>, i: nat)
    requires 1 <= i <= 4 < |fields|
    ensures ValueAt(fields, 4) <= FieldSum(fields, i)
    decreases 4 - i
  {
    if i < 4 {
      IdleWithinFieldSum(fields, i + 1);
    }
  }

  /** The idle value is one of the summed terms, so it never exceeds the unbounded total. */
  lemma {:induction false} IdleWithinSum(lines: seq<string>, kind: LineKind)
    ensures IdleFor(lines, kind) <= SumFor(lines, kind)
    decreases |lines|
  {
    if |lines| > 0 {
      var fields := Text.Fields(lines[|lines| - 1]);
      IdleWithinSum(lines[..|lines| - 1], kind);
      if KindOf(fields) == kind && IdleField(fields).Some? {
        IdleWithinFieldSum(fields, 1);
      }
    }
  }

  /** Unless the total wraps past 2^64, idle never exceeds total, for the aggregate and for every core. */
  lemma IdleAtMostTotal(lines: seq<string>, kind: LineKind)
    requires SumFor(lines, kind) < Text.U64
    ensures Expected(lines, kind).idle <= Expected(lines, kind).total
  {
    IdleWithinSum(lines, kind);
  }
}
