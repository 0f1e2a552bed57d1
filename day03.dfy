/**
 * Day 3: part numbers in an engine schematic. Every maximal run of digits that has a symbol
 * (a character other than '.' and the digits) among its neighbours is a part; symbols are
 * shared by all the parts around them. The input is the schematic's lines.
 */
module Day03 {
  import opened Wrappers
  import Decimal
  import P = Point
  import Arithmetic

  /** `charMatrix`: every line as its characters followed by one '.'. */
  function CharMatrix(lines: seq<string>): (m: seq<string>)
    ensures |m| == |lines| && forall y :: 0 <= y < |m| ==> m[y] == lines[y] + "."
  {
    seq(|lines|, y requires 0 <= y < |lines| => lines[y] + ".")
  }

  /** `charMatrix[0]?.length ?? 0`. */
  function Width(lines: seq<string>): nat
  {
    if lines == [] then 0 else |lines[0]| + 1
  }

  /** The text with every newline replaced by '.': the lines joined by '.'. */
  function Flat(lines: seq<string>): string
    decreases |lines|
  {
    if lines == [] then "" else if |lines| == 1 then lines[0] else lines[0] + "." + Flat(lines[1..])
  }

  lemma DivShift(i: int, w: int)
    requires w > 0 && i >= w
    ensures (i - w) / w == i / w - 1 && (i - w) % w == i % w
  {
    var q, r := (i - w) / w, (i - w) % w;
    assert i == w * (q + 1) + r && 0 <= r < w;
    DivUnique(i, w, q + 1, r);
  }

  lemma DivUnique(a: int, w: int, q: int, r: int)
    requires w > 0 && a == w * q + r && 0 <= r < w
    ensures a / w == q && a % w == r
  {
    var q0, r0 := a / w, a % w;
    assert w * (q - q0) == r0 - r;
    if q > q0 {
      assert w * (q - q0) >= w by { Grow(w, q - q0); }
    } else if q < q0 {
      assert w * (q0 - q) >= w by { Grow(w, q0 - q); }
    }
  }

  lemma Grow(w: int, k: int)
    requires w > 0 && k >= 1
    ensures w * k >= w
  {
    assert w * k == w * (k - 1) + w;
  }

  /**
   * In a schematic of equally long lines, the character at index `i` of the flattened text is
   * the one at column `i mod width` of row `i div width` of the character matrix.
   */
  lemma {:induction false} FlatIndex(lines: seq<string>, i: nat)
    requires lines != [] && forall y :: 0 <= y < |lines| ==> |lines[y]| == |lines[0]|
    requires i < |Flat(lines)|
    ensures i / Width(lines) < |lines| && i % Width(lines) < |CharMatrix(lines)[i / Width(lines)]|
    ensures Flat(lines)[i] == CharMatrix(lines)[i / Width(lines)][i % Width(lines)]
    decreases |lines|
  {
    var w := Width(lines);
    if |lines| == 1 {
      DivUnique(i, w, 0, i);
    } else if i < w {
      DivUnique(i, w, 0, i);
      assert Flat(lines) == (lines[0] + ".") + Flat(lines[1..]);
    } else {
      var rest := lines[1..];
      assert Flat(lines) == (lines[0] + ".") + Flat(rest);
      assert Width(rest) == w;
      DivShift(i, w);
      FlatIndex(rest, i - w);
      assert CharMatrix(lines)[i / w] == CharMatrix(rest)[(i - w) / w];
    }
  }

  /** The end of the digit run starting at `i`. */
  function RunEnd(s: string, i: nat): (j: nat)
    requires i <= |s|
    ensures i <= j <= |s|
    ensures forall k :: i <= k < j ==> Decimal.IsDigit(s[k])
    ensures j < |s| ==> !Decimal.IsDigit(s[j])
    decreases |s| - i
  {
    if i < |s| && Decimal.IsDigit(s[i]) then RunEnd(s, i + 1) else i
  }

  datatype Run = Run(start: nat, digits: string)

  /** The non-empty matches of `/\d*\/g` from index `i` on: the maximal digit runs, in order. */
  function RunsFrom(s: string, i: nat): (r: seq<Run>)
    requires i <= |s|
    ensures forall k :: 0 <= k < |r| ==>
      |r[k].digits| > 0 && Decimal.AllDigits(r[k].digits)
      && i <= r[k].start && r[k].start + |r[k].digits| <= |s| && s[r[k].start..r[k].start + |r[k].digits|] == r[k].digits
    decreases |s| - i
  {
    if i == |s| then []
    else if !Decimal.IsDigit(s[i]) then RunsFrom(s, i + 1)
    else
      var j := RunEnd(s, i);
      [Run(i, s[i..j])] + RunsFrom(s, j)
  }

  /** A run is maximal: no digit just before or just after it. */
  predicate Maximal(s: string, run: Run)
    requires run.start + |run.digits| <= |s|
  {
    (run.start == 0 || !Decimal.IsDigit(s[run.start - 1]))
    && (run.start + |run.digits| == |s| || !Decimal.IsDigit(s[run.start + |run.digits|]))
  }

  /** The runs found from a run boundary are maximal. */
  lemma {:induction false} RunsFromMaximal(s: string, i: nat)
    requires i <= |s| && (i == 0 || i == |s| || !Decimal.IsDigit(s[i - 1]) || !Decimal.IsDigit(s[i]))
    ensures forall k :: 0 <= k < |RunsFrom(s, i)| ==> Maximal(s, RunsFrom(s, i)[k])
    decreases |s| - i
  {
    if i < |s| {
      if !Decimal.IsDigit(s[i]) {
        RunsFromMaximal(s, i + 1);
      } else {
        var j := RunEnd(s, i);
        RunsFromMaximal(s, j);
        RunsFromCons(s, i);
      }
    }
  }

  lemma RunsFromCons(s: string, i: nat)
    requires i < |s| && Decimal.IsDigit(s[i])
    ensures var r := RunsFrom(s, i); var j := RunEnd(s, i);
      |r| == |RunsFrom(s, j)| + 1 && r[0] == Run(i, s[i..j]) && forall k :: 1 <= k < |r| ==> r[k] == RunsFrom(s, j)[k - 1]
  {
  }

  /** The runs come in increasing order without overlapping. */
  lemma {:induction false} RunsFromOrdered(s: string, i: nat)
    requires i <= |s|
    ensures var r := RunsFrom(s, i);
      forall k :: 0 <= k < |r| - 1 ==> r[k].start + |r[k].digits| < r[k + 1].start
    decreases |s| - i
  {
    if i < |s| {
      if !Decimal.IsDigit(s[i]) {
        assert RunsFrom(s, i) == RunsFrom(s, i + 1);
        RunsFromOrdered(s, i + 1);
      } else {
        var j := RunEnd(s, i);
        RunsFromOrdered(s, j);
        RunsFromCons(s, i);
        var r, rest := RunsFrom(s, i), RunsFrom(s, j);
        if |rest| > 0 {
          assert rest[0].start > j by {
            assert rest[0].start >= j;
            assert Decimal.IsDigit(s[rest[0].start]) by {
              assert s[rest[0].start..rest[0].start + |rest[0].digits|][0] == rest[0].digits[0];
            }
          }
        }
        forall k | 0 <= k < |r| - 1
          ensures r[k].start + |r[k].digits| < r[k + 1].start
        {
          if k > 0 {
            assert r[k] == rest[k - 1] && r[k + 1] == rest[k];
          } else {
            assert r[0].start + |r[0].digits| == j && r[1] == rest[0];
          }
        }
      }
    }
  }

  /** Every digit from `i` on lies in one of the runs. */
  lemma {:induction false} RunsFromCover(s: string, i: nat, n: nat)
    requires i <= n < |s| && Decimal.IsDigit(s[n])
    ensures var r := RunsFrom(s, i);
      exists k :: 0 <= k < |r| && r[k].start <= n < r[k].start + |r[k].digits|
    decreases |s| - i
  {
    if !Decimal.IsDigit(s[i]) {
      assert RunsFrom(s, i) == RunsFrom(s, i + 1);
      RunsFromCover(s, i + 1, n);
    } else {
      var j := RunEnd(s, i);
      RunsFromCons(s, i);
      var r := RunsFrom(s, i);
      if n < j {
        assert r[0].start <= n < r[0].start + |r[0].digits|;
      } else {
        RunsFromCover(s, j, n);
        var k :| 0 <= k < |RunsFrom(s, j)| && RunsFrom(s, j)[k].start <= n < RunsFrom(s, j)[k].start + |RunsFrom(s, j)[k].digits|;
        assert r[k + 1] == RunsFrom(s, j)[k];
      }
    }
  }

  /** The digit positions of a run at `(x, y)`, as written: a column past the width wraps to the next row. */
  function DigitPoints(x: int, y: int, len: nat, width: int): (r: seq<P.Point>)
    requires width > 0
    ensures |r| == len
    ensures forall dx :: 0 <= dx < len ==> r[dx] == P.Point((dx + x) % width, y + if dx + x >= width then 1 else 0)
  {
    seq(len, dx requires 0 <= dx < len => P.Point((dx + x) % width, y + if dx + x >= width then 1 else 0))
  }

  /** `PointSet.add`: a point already there is not added again. */
  function AddPoint(s: seq<P.Point>, p: P.Point): (r: seq<P.Point>)
    ensures forall q :: q in r <==> q in s || q == p
  {
    if p in s then s else s + [p]
  }

  predicate Distinct(s: seq<P.Point>)
  {
    forall i, j :: 0 <= i < j < |s| ==> s[i] != s[j]
  }

  /** The points of `ps` added one by one to `s`. */
  function AddPoints(s: seq<P.Point>, ps: seq<P.Point>): (r: seq<P.Point>)
    ensures forall q :: q in r <==> q in s || q in ps
    ensures Distinct(s) ==> Distinct(r)
    decreases |ps|
  {
    if ps == [] then s else AddPoints(AddPoint(s, ps[0]), ps[1..])
  }

  /** Within the row, the digit positions are the `len` cells from `x` on, none repeated. */
  lemma DigitPointsInRow(x: int, y: int, len: nat, width: int)
    requires width > 0 && 0 <= x && x + len <= width
    ensures forall dx :: 0 <= dx < len ==> DigitPoints(x, y, len, width)[dx] == P.Point(x + dx, y)
    ensures Distinct(DigitPoints(x, y, len, width))
    ensures AddPoints([], DigitPoints(x, y, len, width)) == DigitPoints(x, y, len, width)
  {
    var d := DigitPoints(x, y, len, width);
    forall dx | 0 <= dx < len
      ensures d[dx] == P.Point(x + dx, y)
    {
      DivUnique(dx + x, width, 0, dx + x);
    }
    AddDistinct([], d);
  }

  lemma {:induction false} AddDistinct(s: seq<P.Point>, ps: seq<P.Point>)
    requires Distinct(s + ps)
    ensures AddPoints(s, ps) == s + ps
    decreases |ps|
  {
    if ps != [] {
      assert ps[0] !in s by {
        assert (s + ps)[|s|] == ps[0];
        forall k | 0 <= k < |s| ensures s[k] != ps[0] {
          assert (s + ps)[k] == s[k];
        }
      }
      assert AddPoint(s, ps[0]) + ps[1..] == s + ps;
      AddDistinct(AddPoint(s, ps[0]), ps[1..]);
    }
  }

  /** `charMatrix[p.y]?.[p.x]`. */
  function CharAt(m: seq<string>, p: P.Point): Option<char>
  {
    if 0 <= p.y < |m| && 0 <= p.x < |m[p.y]| then Some(m[p.y][p.x]) else None
  }

  /** A symbol: a character that is neither '.' nor a digit. */
  predicate IsSymbol(c: Option<char>)
  {
    c.Some? && c.value != '.' && !Decimal.IsDigit(c.value)
  }

  /** The symbol positions among `ns`, added to `acc`. */
  function AddSymbols(m: seq<string>, ns: seq<P.Point>, acc: seq<P.Point>): (r: seq<P.Point>)
    ensures forall q :: q in r <==> q in acc || (q in ns && IsSymbol(CharAt(m, q)))
    ensures Distinct(acc) ==> Distinct(r)
    decreases |ns|
  {
    if ns == [] then acc
    else AddSymbols(m, ns[1..], if IsSymbol(CharAt(m, ns[0])) then AddPoint(acc, ns[0]) else acc)
  }

  /** `symbolNeighborIndexes`: the symbols among the neighbours of every digit, each once. */
  function SymbolIndexes(m: seq<string>, width: int, height: int, ds: seq<P.Point>, ignore: set<string>, acc: seq<P.Point>): (r: seq<P.Point>)
    ensures forall q :: q in r <==>
      q in acc || (IsSymbol(CharAt(m, q)) && exists d :: d in ds && q in P.Neighbors(d, Some(P.Point(width, height)), ignore))
    ensures Distinct(acc) ==> Distinct(r)
    decreases |ds|
  {
    if ds == [] then acc
    else
      var next := AddSymbols(m, P.Neighbors(ds[0], Some(P.Point(width, height)), ignore), acc);
      var r := SymbolIndexes(m, width, height, ds[1..], ignore, next);
      assert forall d :: d in ds <==> d == ds[0] || d in ds[1..];
      r
  }

  function Keys(ds: seq<P.Point>): set<string>
  {
    set d | d in ds :: P.ToString(d)
  }

  lemma KeysExactly(ds: seq<P.Point>, q: P.Point)
    ensures P.ToString(q) in Keys(ds) <==> q in ds
  {
    if P.ToString(q) in Keys(ds) {
      var d :| d in ds && P.ToString(d) == P.ToString(q);
      P.ToStringInjective(d, q);
    }
  }

  /**
   * A run is a part exactly when some cell next to one of its digits, inside the schematic and
   * not one of its own digits, holds a symbol.
   */
  lemma IsPartIff(m: seq<string>, width: int, height: int, ds: seq<P.Point>, q: P.Point)
    ensures q in SymbolIndexes(m, width, height, ds, Keys(ds), []) <==>
      (IsSymbol(CharAt(m, q)) && q !in ds && 0 <= q.x < width && 0 <= q.y < height
       && exists d :: d in ds && P.IsNeighbor(d, q))
  {
    KeysExactly(ds, q);
    forall d | d in ds
      ensures q in P.Neighbors(d, Some(P.Point(width, height)), Keys(ds))
        <==> P.IsNeighbor(d, q) && P.Admitted(q, Some(P.Point(width, height)), Keys(ds))
    {
      P.NeighborsSpec(d, Some(P.Point(width, height)), Keys(ds));
    }
  }

  datatype Part = Part(number: nat, index: P.Point, digitIndexes: seq<P.Point>, symbolNeighbors: seq<P.Point>)

  /** A symbol with the indices, in `parts`, of the parts around it. */
  datatype Sym = Sym(index: P.Point, symbol: string, neighboringParts: seq<nat>)

  /** The parts so far, the symbol positions in the order first seen, and the symbols by position. */
  datatype State = State(parts: seq<Part>, order: seq<P.Point>, symbols: map<P.Point, Sym>)

  /** `charMatrix[index.y]?.[index.x] ?? ''`. */
  function SymbolText(m: seq<string>, p: P.Point): string
  {
    var c := CharAt(m, p);
    if c.Some? then [c.value] else ""
  }

  /** Each of `syms` found or created, then given part `k`. */
  function Attach(m: seq<string>, order: seq<P.Point>, symbols: map<P.Point, Sym>, syms: seq<P.Point>, k: nat): (seq<P.Point>, map<P.Point, Sym>)
    decreases |syms|
  {
    if syms == [] then (order, symbols)
    else
      var p := syms[0];
      var existing := if p in symbols then symbols[p] else Sym(p, SymbolText(m, p), []);
      Attach(m, if p in symbols then order else order + [p],
             symbols[p := existing.(neighboringParts := existing.neighboringParts + [k])], syms[1..], k)
  }

  /** The state with `part` pushed: each of its symbols found or created, then given the part's index. */
  function Extended(m: seq<string>, st: State, part: Part): State
  {
    var (order, symbols) := Attach(m, st.order, st.symbols, part.symbolNeighbors, |st.parts|);
    State(st.parts + [part], order, symbols)
  }

  /** One match of the loop in `parseInput`. */
  function Step(m: seq<string>, width: int, height: int, st: State, run: Run): State
    requires width > 0 && Decimal.AllDigits(run.digits)
  {
    var x, y := run.start % width, run.start / width;
    var ds := AddPoints([], DigitPoints(x, y, |run.digits|, width));
    var syms := SymbolIndexes(m, width, height, ds, Keys(ds), []);
    if |syms| == 0 then st
    else Extended(m, st, Part(Decimal.DigitsValue(run.digits), P.Point(x, y), ds, syms))
  }

  /** The indices of the parts that list `p` among their symbols, in order. */
  function PartsAt(parts: seq<Part>, p: P.Point): seq<nat>
    decreases |parts|
  {
    if parts == [] then []
    else PartsAt(parts[..|parts| - 1], p) + if p in parts[|parts| - 1].symbolNeighbors then [|parts| - 1] else []
  }

  /** Every symbol position is listed once, and the listed positions are the symbols' keys. */
  ghost predicate OrderMatches(st: State)
  {
    Distinct(st.order) && forall p :: p in st.symbols <==> p in st.order
  }

  /** Every symbol object holds its own position and character. */
  ghost predicate Labelled(m: seq<string>, st: State)
  {
    forall p :: p in st.symbols ==> st.symbols[p].index == p && st.symbols[p].symbol == SymbolText(m, p)
  }

  /** Every symbol object lists the parts around it, in order. */
  ghost predicate Listing(st: State)
  {
    forall p :: p in st.symbols ==> st.symbols[p].neighboringParts == PartsAt(st.parts, p)
  }

  /** The symbol positions are exactly those some part lists. */
  ghost predicate Covered(st: State)
  {
    forall p :: p in st.symbols <==> exists k :: 0 <= k < |st.parts| && p in st.parts[k].symbolNeighbors
  }

  /** What the loop keeps. */
  ghost predicate Consistent(m: seq<string>, st: State)
  {
    OrderMatches(st) && Labelled(m, st) && Listing(st) && Covered(st)
  }

  lemma {:induction false} AttachSpec(m: seq<string>, order: seq<P.Point>, symbols: map<P.Point, Sym>, syms: seq<P.Point>, k: nat)
    requires Distinct(order) && Distinct(syms)
    requires forall p :: p in symbols <==> p in order
    ensures var (o, s) := Attach(m, order, symbols, syms, k);
      Distinct(o)
      && (forall p :: p in s <==> p in o)
      && (forall p :: p in s <==> p in symbols || p in syms)
      && (forall p :: p in symbols && p !in syms ==> s[p] == symbols[p])
      && (forall p :: p in syms ==> s[p] == (if p in symbols then symbols[p] else Sym(p, SymbolText(m, p), [])).(neighboringParts :=
            (if p in symbols then symbols[p].neighboringParts else []) + [k]))
    decreases |syms|
  {
    if syms != [] {
      var p := syms[0];
      var existing := if p in symbols then symbols[p] else Sym(p, SymbolText(m, p), []);
      var order' := if p in symbols then order else order + [p];
      var symbols' := symbols[p := existing.(neighboringParts := existing.neighboringParts + [k])];
      assert Distinct(syms[1..]);
      assert Distinct(order');
      AttachSpec(m, order', symbols', syms[1..], k);
      assert forall q :: q in syms[1..] ==> q != p;
      assert forall q :: q in syms <==> q == p || q in syms[1..];
    }
  }

  lemma PartsAtStep(parts: seq<Part>, q: Part, p: P.Point)
    ensures PartsAt(parts + [q], p) == PartsAt(parts, p) + if p in q.symbolNeighbors then [|parts|] else []
  {
    assert (parts + [q])[..|parts|] == parts;
  }

  lemma {:induction false} PartsAtEmpty(parts: seq<Part>, p: P.Point)
    requires forall k :: 0 <= k < |parts| ==> p !in parts[k].symbolNeighbors
    ensures PartsAt(parts, p) == []
    decreases |parts|
  {
    if parts != [] {
      var init := parts[..|parts| - 1];
      assert forall k :: 0 <= k < |init| ==> init[k] == parts[k];
      PartsAtEmpty(init, p);
    }
  }

  lemma ExtendedOrder(m: seq<string>, st: State, part: Part)
    requires OrderMatches(st) && Distinct(part.symbolNeighbors)
    ensures OrderMatches(Extended(m, st, part))
  {
    AttachSpec(m, st.order, st.symbols, part.symbolNeighbors, |st.parts|);
  }

  lemma ExtendedLabelled(m: seq<string>, st: State, part: Part)
    requires OrderMatches(st) && Labelled(m, st) && Distinct(part.symbolNeighbors)
    ensures Labelled(m, Extended(m, st, part))
  {
    AttachSpec(m, st.order, st.symbols, part.symbolNeighbors, |st.parts|);
  }

  lemma ExtendedListing(m: seq<string>, st: State, part: Part)
    requires OrderMatches(st) && Listing(st) && Covered(st) && Distinct(part.symbolNeighbors)
    ensures Listing(Extended(m, st, part))
  {
    AttachSpec(m, st.order, st.symbols, part.symbolNeighbors, |st.parts|);
    var next := Extended(m, st, part);
    forall p | p in next.symbols
      ensures next.symbols[p].neighboringParts == PartsAt(next.parts, p)
    {
      PartsAtStep(st.parts, part, p);
      if p !in st.symbols {
        PartsAtEmpty(st.parts, p);
      }
    }
  }

  lemma ExtendedCovered(m: seq<string>, st: State, part: Part)
    requires OrderMatches(st) && Covered(st) && Distinct(part.symbolNeighbors)
    ensures Covered(Extended(m, st, part))
  {
    AttachSpec(m, st.order, st.symbols, part.symbolNeighbors, |st.parts|);
    var next := Extended(m, st, part);
    forall p
      ensures p in next.symbols <==> exists k :: 0 <= k < |next.parts| && p in next.parts[k].symbolNeighbors
    {
      if p in part.symbolNeighbors {
        assert p in next.parts[|st.parts|].symbolNeighbors;
      }
      if p in st.symbols {
        var k :| 0 <= k < |st.parts| && p in st.parts[k].symbolNeighbors;
        assert next.parts[k] == st.parts[k];
      }
      if k :| 0 <= k < |next.parts| && p in next.parts[k].symbolNeighbors {
        if k < |st.parts| {
          assert next.parts[k] == st.parts[k];
        }
      }
    }
  }

  /** Every match keeps the loop's bookkeeping consistent. */
  lemma StepConsistent(m: seq<string>, width: int, height: int, st: State, run: Run)
    requires width > 0 && Decimal.AllDigits(run.digits)
    requires Consistent(m, st)
    ensures Consistent(m, Step(m, width, height, st, run))
  {
    var x, y := run.start % width, run.start / width;
    var ds := AddPoints([], DigitPoints(x, y, |run.digits|, width));
    var syms := SymbolIndexes(m, width, height, ds, Keys(ds), []);
    if |syms| > 0 {
      var part := Part(Decimal.DigitsValue(run.digits), P.Point(x, y), ds, syms);
      ExtendedOrder(m, st, part);
      ExtendedLabelled(m, st, part);
      ExtendedListing(m, st, part);
      ExtendedCovered(m, st, part);
    }
  }

  /** The state after the first `n` runs. */
  function Scan(m: seq<string>, width: int, height: int, runs: seq<Run>, n: nat): State
    requires width > 0 && n <= |runs| && forall k :: 0 <= k < |runs| ==> Decimal.AllDigits(runs[k].digits)
  {
    if n == 0 then State([], [], map[]) else Step(m, width, height, Scan(m, width, height, runs, n - 1), runs[n - 1])
  }

  lemma {:induction false} ScanConsistent(m: seq<string>, width: int, height: int, runs: seq<Run>, n: nat)
    requires width > 0 && n <= |runs| && forall k :: 0 <= k < |runs| ==> Decimal.AllDigits(runs[k].digits)
    ensures Consistent(m, Scan(m, width, height, runs, n))
  {
    if n > 0 {
      ScanConsistent(m, width, height, runs, n - 1);
      StepConsistent(m, width, height, Scan(m, width, height, runs, n - 1), runs[n - 1]);
    }
  }

  lemma FlatEmpty(lines: seq<string>)
    requires |Flat(lines)| > 0
    ensures lines != [] && Width(lines) > 0
  {
  }

  /** The state after every match of the schematic. */
  function Parsed(lines: seq<string>): State
  {
    var runs := RunsFrom(Flat(lines), 0);
    if runs == [] then State([], [], map[])
    else
      FlatEmpty(lines);
      Scan(CharMatrix(lines), Width(lines), |lines|, runs, |runs|)
  }

  lemma ParsedConsistent(lines: seq<string>)
    ensures Consistent(CharMatrix(lines), Parsed(lines))
  {
    var runs := RunsFrom(Flat(lines), 0);
    if runs != [] {
      FlatEmpty(lines);
      ScanConsistent(CharMatrix(lines), Width(lines), |lines|, runs, |runs|);
    }
  }

  /** `Array.from(seenSymbols.values())`: the symbol objects in the order first seen. */
  function Listed(st: State): seq<Sym>
  {
    seq(|st.order|, i requires 0 <= i < |st.order| =>
      if st.order[i] in st.symbols then st.symbols[st.order[i]] else Sym(st.order[i], "", []))
  }

  /** In a consistent state every symbol object appears exactly once, at its position's place in the order. */
  lemma ListedExactly(m: seq<string>, st: State)
    requires Consistent(m, st)
    ensures |Listed(st)| == |st.symbols|
    ensures forall i :: 0 <= i < |Listed(st)| ==> Listed(st)[i] == st.symbols[st.order[i]]
    ensures forall p :: p in st.symbols ==> exists i :: 0 <= i < |Listed(st)| && Listed(st)[i] == st.symbols[p]
  {
    DistinctCard(st.order);
    assert st.symbols.Keys == set p | p in st.order;
    forall p | p in st.symbols
      ensures exists i :: 0 <= i < |Listed(st)| && Listed(st)[i] == st.symbols[p]
    {
      var i :| 0 <= i < |st.order| && st.order[i] == p;
      assert Listed(st)[i] == st.symbols[p];
    }
  }

  lemma {:induction false} DistinctCard(s: seq<P.Point>)
    requires Distinct(s)
    ensures |set p | p in s| == |s|
    decreases |s|
  {
    if s != [] {
      var init := s[..|s| - 1];
      assert Distinct(init);
      DistinctCard(init);
      assert (set p | p in s) == (set p | p in init) + {s[|s| - 1]};
      assert s[|s| - 1] !in init;
    }
  }

  /** The loop of `parseInput` over the matches. */
  method ScanLoop(m: seq<string>, width: int, height: int, runs: seq<Run>) returns (st: State)
    requires width > 0 && forall k :: 0 <= k < |runs| ==> Decimal.AllDigits(runs[k].digits)
    ensures st == Scan(m, width, height, runs, |runs|)
  {
    st := State([], [], map[]);
    var i := 0;
    while i < |runs|
      invariant 0 <= i <= |runs| && st == Scan(m, width, height, runs, i)
      decreases |runs| - i
    {
      st := Step(m, width, height, st, runs[i]);
      i := i + 1;
    }
  }

  /** `parseInput`: the parts in the order their runs appear, and the symbols in the order first seen. */
  method ParseInput(lines: seq<string>) returns (parts: seq<Part>, symbols: seq<Sym>)
    ensures parts == Parsed(lines).parts && symbols == Listed(Parsed(lines))
  {
    var m := CharMatrix(lines);
    var width, height := Width(lines), |lines|;
    var runs := RunsFrom(Flat(lines), 0);
    var st := State([], [], map[]);
    if runs != [] {
      FlatEmpty(lines);
      st := ScanLoop(m, width, height, runs);
    }
    parts := st.parts;
    symbols := Listed(st);
  }

  function Numbers(parts: seq<Part>): (r: seq<int>)
    ensures |r| == |parts| && forall k :: 0 <= k < |parts| ==> r[k] == parts[k].number
  {
    seq(|parts|, k requires 0 <= k < |parts| => parts[k].number)
  }

  /** `part1`: the sum of the part numbers. */
  function Part1(parts: seq<Part>): int
  {
    Arithmetic.Sum(Numbers(parts))
  }

  /** A gear: a '*' with exactly two parts around it. */
  predicate IsGear(s: Sym)
  {
    s.symbol == "*" && |s.neighboringParts| == 2
  }

  /** The product of the numbers of the parts a symbol lists. */
  function Ratio(parts: seq<Part>, ks: seq<nat>): int
    decreases |ks|
  {
    if ks == [] then 1 else Ratio(parts, ks[..|ks| - 1]) * (if ks[|ks| - 1] < |parts| then parts[ks[|ks| - 1]].number else 0)
  }

  /** `part2`: the sum, over the gears, of the product of their two part numbers. */
  function Part2(parts: seq<Part>, symbols: seq<Sym>): int
    decreases |symbols|
  {
    if symbols == [] then 0
    else Part2(parts, symbols[..|symbols| - 1]) + if IsGear(symbols[|symbols| - 1]) then Ratio(parts, symbols[|symbols| - 1].neighboringParts) else 0
  }

  /** A gear's ratio is the product of its two parts' numbers. */
  lemma GearRatio(parts: seq<Part>, s: Sym)
    requires IsGear(s) && forall i :: 0 <= i < |s.neighboringParts| ==> s.neighboringParts[i] < |parts|
    ensures Ratio(parts, s.neighboringParts) == parts[s.neighboringParts[0]].number * parts[s.neighboringParts[1]].number
  {
    var ks := s.neighboringParts;
    assert ks[..1][..0] == [];
    assert ks[..|ks| - 1] == ks[..1];
    assert Ratio(parts, ks[..1]) == parts[ks[0]].number;
    assert Ratio(parts, ks) == Ratio(parts, ks[..1]) * parts[ks[1]].number;
  }

  /** The reduce of part 1: no parts sum to 0, and each further part adds its number. */
  lemma Part1Step(parts: seq<Part>, p: Part)
    ensures Part1([]) == 0
    ensures Part1(parts + [p]) == Part1(parts) + p.number
  {
    assert Numbers(parts + [p])[..|parts|] == Numbers(parts);
  }

  /** In a consistent state a symbol's parts are exactly the parts listing it, in order, each once. */
  lemma {:induction false} PartsAtExactly(parts: seq<Part>, p: P.Point)
    ensures forall k :: k in PartsAt(parts, p) <==> (0 <= k < |parts| && p in parts[k].symbolNeighbors)
    ensures forall i, j :: 0 <= i < j < |PartsAt(parts, p)| ==> PartsAt(parts, p)[i] < PartsAt(parts, p)[j]
    decreases |parts|
  {
    if parts != [] {
      var init := parts[..|parts| - 1];
      PartsAtExactly(init, p);
      assert forall k :: 0 <= k < |init| ==> init[k] == parts[k];
      var before := PartsAt(init, p);
      assert forall i :: 0 <= i < |before| ==> before[i] in before;
    }
  }
}
