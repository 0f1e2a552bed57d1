/**
 * Day 15: the HASH algorithm on the comma-separated steps of an initialisation sequence,
 * and the HASHMAP procedure that puts labelled lenses into 256 boxes and takes them out.
 */
module Day15 {
  import opened Wrappers
  import Text
  import Arithmetic
  import Decimal

  /** `split(sep)`: the pieces between separators; an empty string is one empty piece. */
  function SplitOn(s: string, sep: char): (pieces: seq<string>)
    ensures |pieces| >= 1
    ensures forall i :: 0 <= i < |pieces| ==> sep !in pieces[i]
  {
    if s == [] then [""]
    else
      var rest := SplitOn(s[1..], sep);
      if s[0] == sep then [""] + rest
      else
        assert forall i :: 1 <= i < |rest| ==> rest[1..][i - 1] == rest[i];
        [[s[0]] + rest[0]] + rest[1..]
  }

  /** The pieces joined back with the separator between them. */
  function Join(pieces: seq<string>, sep: char): string
  {
    if pieces == [] then ""
    else if |pieces| == 1 then pieces[0]
    else pieces[0] + [sep] + Join(pieces[1..], sep)
  }

  /** Splitting loses nothing: joining the pieces with the separator gives the text back. */
  lemma {:induction false} SplitJoin(s: string, sep: char)
    ensures Join(SplitOn(s, sep), sep) == s
  {
    if s != [] {
      var rest := SplitOn(s[1..], sep);
      SplitJoin(s[1..], sep);
      if s[0] == sep {
        assert ([""] + rest)[1..] == rest;
      } else {
        var pieces := [[s[0]] + rest[0]] + rest[1..];
        assert pieces[1..] == rest[1..];
        if |rest| == 1 {
          assert Join(pieces, sep) == [s[0]] + rest[0];
        } else {
          assert rest[1..][1..] == rest[2..];
          assert Join(rest, sep) == rest[0] + [sep] + Join(rest[1..], sep);
        }
        assert s == [s[0]] + s[1..];
      }
    }
  }

  /** `parseInput`: the non-empty comma-separated steps, none holding a comma. */
  function ParseInput(text: string): (steps: seq<string>)
    ensures forall i :: 0 <= i < |steps| ==> steps[i] != "" && ',' !in steps[i]
  {
    var kept := Text.NonEmpty(SplitOn(text, ','));
    assert forall i :: 0 <= i < |kept| ==> kept[i] in SplitOn(text, ',');
    kept
  }

  /** The HASH of `s`: for each character, add its code, multiply by 17, keep the remainder mod 256. */
  function HashOf(s: string): (h: int)
    ensures 0 <= h < 256
  {
    if s == [] then 0 else ((HashOf(s[..|s| - 1]) + (s[|s| - 1] as int)) * 17) % 256
  }

  /** `runHASH`: the loop over the characters. */
  method RunHash(str: string) returns (value: int)
    ensures value == HashOf(str)
  {
    value := 0;
    for i := 0 to |str|
      invariant value == HashOf(str[..i])
    {
      assert str[..i + 1][..i] == str[..i];
      value := value + (str[i] as int);
      value := value * 17;
      value := value % 256;
    }
    assert str[..|str|] == str;
  }

  /** HASH works character by character: one more character continues from the hash so far. */
  lemma {:induction false} HashAppend(a: string, c: char)
    ensures HashOf(a + [c]) == ((HashOf(a) + (c as int)) * 17) % 256
  {
    assert (a + [c])[..|a|] == a;
  }

  /** `part1`: the sum of the steps' hashes. */
  function Part1(steps: seq<string>): (total: int)
    ensures 0 <= total <= 255 * |steps|
  {
    var hashes := seq(|steps|, i requires 0 <= i < |steps| => HashOf(steps[i]));
    HashesBounded(hashes);
    Arithmetic.Sum(hashes)
  }

  lemma {:induction false} HashesBounded(values: seq<int>)
    requires forall i :: 0 <= i < |values| ==> 0 <= values[i] < 256
    ensures 0 <= Arithmetic.Sum(values) <= 255 * |values|
    decreases |values|
  {
    if values != [] {
      HashesBounded(values[..|values| - 1]);
    }
  }

  /** A lens by its label `name`; `focal` is `None` where `parseInt` of a missing focal length gives NaN. */
  datatype Lens = Lens(name: string, focal: Option<nat>)

  /** A `Box`: its lenses in insertion order, one per label, as the underlying `Map` keeps them. */
  type Box = seq<Lens>

  /** At most one lens per label: `Box` is a set keyed by label. */
  predicate UniqueLabels(box: Box)
  {
    forall i, j :: 0 <= i < j < |box| ==> box[i].name != box[j].name
  }

  /** `box.get(label)`: the slot of the lens with that label, if any. */
  function Slot(box: Box, name: string): (k: Option<nat>)
    ensures k.Some? ==> k.value < |box| && box[k.value].name == name
    ensures k.Some? ==> forall i :: 0 <= i < k.value ==> box[i].name != name
    ensures k.None? ==> forall i :: 0 <= i < |box| ==> box[i].name != name
  {
    if box == [] then None
    else if box[0].name == name then Some(0)
    else
      var rest := Slot(box[1..], name);
      assert forall i :: 1 <= i < |box| ==> box[i] == box[1..][i - 1];
      if rest.Some? then Some(rest.value + 1) else None
  }

  /** An `=` step on one box: `setFocalLength` on an existing lens, else `add` of a new one. */
  function Assign(box: Box, name: string, focal: Option<nat>): Box
  {
    match Slot(box, name)
    case Some(k) => box[k := Lens(name, focal)]
    case None => box + [Lens(name, focal)]
  }

  /**
   * An `=` step keeps every other lens where it was, replaces the labelled lens in its own
   * slot when there is one, appends a new lens at the end otherwise, and keeps one lens per label.
   */
  lemma AssignSpec(box: Box, name: string, focal: Option<nat>)
    requires UniqueLabels(box)
    ensures var r := Assign(box, name, focal);
      && UniqueLabels(r)
      && |r| == |box| + (if Slot(box, name).Some? then 0 else 1)
      && (forall i :: 0 <= i < |box| ==> r[i] == if box[i].name == name then Lens(name, focal) else box[i])
      && (Slot(box, name).None? ==> r[|box|] == Lens(name, focal))
  {
  }

  /** A `-` step on one box: `delete` of the lens with that label. */
  function Remove(box: Box, name: string): Box
  {
    if box == [] then []
    else (if box[0].name == name then [] else [box[0]]) + Remove(box[1..], name)
  }

  /** A `-` step keeps exactly the lenses with other labels. */
  lemma {:induction false} RemoveMembers(box: Box, name: string)
    ensures forall l :: l in Remove(box, name) <==> l in box && l.name != name
  {
    if box != [] {
      RemoveMembers(box[1..], name);
      assert box == [box[0]] + box[1..];
    }
  }

  lemma {:induction false} RemoveAppend(a: Box, b: Box, name: string)
    ensures Remove(a + b, name) == Remove(a, name) + Remove(b, name)
  {
    if a != [] {
      assert (a + b)[0] == a[0] && (a + b)[1..] == a[1..] + b;
      RemoveAppend(a[1..], b, name);
    } else {
      assert a + b == b;
    }
  }

  /**
   * A `-` step takes out the labelled lens and closes the gap, keeping the others in order;
   * without such a lens it changes nothing.
   */
  lemma RemoveSpec(box: Box, name: string)
    requires UniqueLabels(box)
    ensures UniqueLabels(Remove(box, name))
    ensures Slot(box, name).None? ==> Remove(box, name) == box
    ensures Slot(box, name).Some? ==>
      var k := Slot(box, name).value;
      Remove(box, name) == box[..k] + box[k + 1..]
  {
    if Slot(box, name).None? {
      RemoveAbsent(box, name);
    } else {
      var k := Slot(box, name).value;
      RemoveAt(box, name, k);
      UniqueWithout(box, k);
    }
  }

  lemma RemoveAt(box: Box, name: string, k: nat)
    requires UniqueLabels(box) && k < |box| && box[k].name == name
    ensures Remove(box, name) == box[..k] + box[k + 1..]
  {
    var before, after := box[..k], box[k + 1..];
    assert box == before + [box[k]] + after;
    RemoveAppend(before + [box[k]], after, name);
    RemoveAppend(before, [box[k]], name);
    RemoveAbsent(before, name);
    assert Remove([box[k]], name) == [] + Remove([], name);
    RemoveAbsent(after, name);
  }

  lemma UniqueWithout(box: Box, k: nat)
    requires UniqueLabels(box) && k < |box|
    ensures UniqueLabels(box[..k] + box[k + 1..])
  {
    var r := box[..k] + box[k + 1..];
    forall i, j | 0 <= i < j < |r|
      ensures r[i].name != r[j].name
    {
      var i', j' := if i < k then i else i + 1, if j < k then j else j + 1;
      assert r[i] == box[i'] && r[j] == box[j'];
    }
  }

  /** The three fields the regular expression `([^-=]+)([=-])(\d+)?` matches. */
  datatype Fields = Fields(name: string, operator: string, digits: string)

  predicate IsOperator(c: char)
  {
    c == '-' || c == '='
  }

  /** The end of the run of characters other than `-` and `=` from `i`. */
  function LabelEnd(s: string, i: nat): (j: nat)
    requires i <= |s|
    ensures i <= j <= |s| && (forall k :: i <= k < j ==> !IsOperator(s[k])) && (j < |s| ==> IsOperator(s[j]))
    decreases |s| - i
  {
    if i == |s| || IsOperator(s[i]) then i else LabelEnd(s, i + 1)
  }

  /** The end of the run of decimal digits from `i`. */
  function DigitsEnd(s: string, i: nat): (j: nat)
    requires i <= |s|
    ensures i <= j <= |s| && (forall k :: i <= k < j ==> Decimal.IsDigit(s[k])) && (j < |s| ==> !Decimal.IsDigit(s[j]))
    decreases |s| - i
  {
    if i == |s| || !Decimal.IsDigit(s[i]) then i else DigitsEnd(s, i + 1)
  }

  /** A well-formed match: a non-empty label free of operators, one operator, then digits. */
  predicate WellFormed(f: Fields)
  {
    && f.name != "" && (forall k :: 0 <= k < |f.name| ==> !IsOperator(f.name[k]))
    && (f.operator == "-" || f.operator == "=")
    && Decimal.AllDigits(f.digits)
  }

  /**
   * `str.match(...)`, searching from `i`: the leftmost start of a label run that an operator
   * follows, with the label and the digits taken greedily.
   */
  function FindMatch(s: string, i: nat): (m: Option<Fields>)
    requires i <= |s|
    ensures m.Some? ==> WellFormed(m.value)
    decreases |s| - i
  {
    if i == |s| then None
    else if IsOperator(s[i]) then FindMatch(s, i + 1)
    else
      var j := LabelEnd(s, i);
      if j < |s| then
        var e := DigitsEnd(s, j + 1);
        Some(Fields(s[i..j], [s[j]], s[j + 1..e]))
      else FindMatch(s, i + 1)
  }

  /** The destructured match, with `''` for every field when nothing matches. */
  function Match(str: string): Fields
  {
    match FindMatch(str, 0)
    case Some(f) => f
    case None => Fields("", "", "")
  }

  /**
   * A step written as a label, an operator and a focal length, followed by anything that does
   * not start with a digit, matches back to exactly those fields.
   */
  lemma MatchOfStep(f: Fields, rest: string)
    requires WellFormed(f)
    requires rest == [] || !Decimal.IsDigit(rest[0])
    ensures Match(f.name + f.operator + f.digits + rest) == f
  {
    var s := f.name + f.operator + f.digits + rest;
    var j := |f.name|;
    assert forall k :: 0 <= k < j ==> s[k] == f.name[k];
    assert LabelEnd(s, 0) == j by {
      LabelEndAt(s, 0, j);
    }
    assert s[j] == f.operator[0];
    assert DigitsEnd(s, j + 1) == j + 1 + |f.digits| by {
      assert forall k :: j + 1 <= k < j + 1 + |f.digits| ==> s[k] == f.digits[k - j - 1];
      DigitsEndAt(s, j + 1, j + 1 + |f.digits|);
    }
    assert s[..j] == f.name;
    assert s[j + 1..j + 1 + |f.digits|] == f.digits;
  }

  lemma {:induction false} LabelEndAt(s: string, i: nat, j: nat)
    requires i <= j < |s| && (forall k :: i <= k < j ==> !IsOperator(s[k])) && IsOperator(s[j])
    ensures LabelEnd(s, i) == j
    decreases j - i
  {
    if i < j {
      LabelEndAt(s, i + 1, j);
    }
  }

  lemma {:induction false} DigitsEndAt(s: string, i: nat, j: nat)
    requires i <= j <= |s| && (forall k :: i <= k < j ==> Decimal.IsDigit(s[k])) && (j < |s| ==> !Decimal.IsDigit(s[j]))
    ensures DigitsEnd(s, i) == j
    decreases j - i
  {
    if i < j {
      DigitsEndAt(s, i + 1, j);
    }
  }

  /** `parseInt(flString, 10)`: NaN for the empty string. */
  function Focal(digits: string): Option<nat>
    requires Decimal.AllDigits(digits)
  {
    if digits == "" then None else Some(Decimal.DigitsValue(digits))
  }

  /** `runHASHMAP` on the 256 boxes as values: the boxes afterwards, or the error it throws. */
  function Apply(boxes: seq<Box>, str: string): (r: Result<seq<Box>>)
    requires |boxes| == 256
    ensures r.Success? ==> |r.value| == 256
  {
    var f := Match(str);
    var b := HashOf(f.name);
    if f.operator == "=" then Success(boxes[b := Assign(boxes[b], f.name, Focal(f.digits))])
    else if f.operator == "-" then Success(boxes[b := Remove(boxes[b], f.name)])
    else Failure("Invalid operator \"" + f.operator + "\" for command \"" + str + "\"")
  }

  /** Every box holds one lens per label, and every lens sits in the box its label hashes to. */
  ghost predicate Placed(boxes: seq<Box>)
  {
    forall b :: 0 <= b < |boxes| ==> UniqueLabels(boxes[b]) && forall k :: 0 <= k < |boxes[b]| ==> HashOf(boxes[b][k].name) == b
  }

  /**
   * A step fails exactly when the operator is neither `=` nor `-`; it changes only the box its
   * label hashes to, and keeps every lens in its right box and one lens per label.
   */
  lemma ApplySpec(boxes: seq<Box>, str: string)
    requires |boxes| == 256 && Placed(boxes)
    ensures Apply(boxes, str).Failure? <==> Match(str).operator != "=" && Match(str).operator != "-"
    ensures Apply(boxes, str).Success? ==>
      && Placed(Apply(boxes, str).value)
      && forall b :: 0 <= b < 256 && b != HashOf(Match(str).name) ==> Apply(boxes, str).value[b] == boxes[b]
  {
    var f := Match(str);
    var b := HashOf(f.name);
    if f.operator == "=" {
      AssignSpec(boxes[b], f.name, Focal(f.digits));
    } else if f.operator == "-" {
      RemoveSpec(boxes[b], f.name);
      RemoveMembers(boxes[b], f.name);
      var r := Remove(boxes[b], f.name);
      forall k | 0 <= k < |r|
        ensures HashOf(r[k].name) == b
      {
        assert r[k] in boxes[b];
      }
    }
  }

  /** 256 empty boxes. */
  function EmptyBoxes(): (boxes: seq<Box>)
    ensures |boxes| == 256 && Placed(boxes)
  {
    seq(256, _ => [])
  }

  /** The steps run one after another from empty boxes; the first error stops them. */
  function ApplyAll(steps: seq<string>): (r: Result<seq<Box>>)
    ensures r.Success? ==> |r.value| == 256
  {
    if steps == [] then Success(EmptyBoxes())
    else
      match ApplyAll(steps[..|steps| - 1])
      case Failure(e) => Failure(e)
      case Success(boxes) => Apply(boxes, steps[|steps| - 1])
  }

  /** However many steps run, every lens is in the box its label hashes to, once. */
  lemma {:induction false} ApplyAllPlaced(steps: seq<string>)
    ensures ApplyAll(steps).Success? ==> Placed(ApplyAll(steps).value)
  {
    if steps != [] {
      ApplyAllPlaced(steps[..|steps| - 1]);
      if ApplyAll(steps[..|steps| - 1]).Success? {
        ApplySpec(ApplyAll(steps[..|steps| - 1]).value, steps[|steps| - 1]);
      }
    }
  }

  /** The steps run from empty boxes succeed exactly when every step's operator is `=` or `-`. */
  lemma {:induction false} ApplyAllFails(steps: seq<string>)
    ensures ApplyAll(steps).Success? <==>
      forall i :: 0 <= i < |steps| ==> Match(steps[i]).operator == "=" || Match(steps[i]).operator == "-"
  {
    if steps != [] {
      var init := steps[..|steps| - 1];
      ApplyAllFails(init);
      ApplyAllPlaced(init);
      assert forall i :: 0 <= i < |init| ==> init[i] == steps[i];
      if ApplyAll(init).Success? {
        ApplySpec(ApplyAll(init).value, steps[|steps| - 1]);
      }
    }
  }

  /** Every lens has a focal length (none is NaN). */
  predicate AllFocal(boxes: seq<Box>)
  {
    forall b, k :: 0 <= b < |boxes| && 0 <= k < |boxes[b]| ==> boxes[b][k].focal.Some?
  }

  /** One box's focusing power: each lens by box number, slot number and focal length. */
  function BoxPower(box: Box, b: int): int
    requires forall k :: 0 <= k < |box| ==> box[k].focal.Some?
  {
    Arithmetic.Sum(seq(|box|, k requires 0 <= k < |box| => (b + 1) * (k + 1) * box[k].focal.value))
  }

  /** A box's power is never negative: focal lengths are digit runs. */
  lemma BoxPowerNonNegative(box: Box, b: nat)
    requires forall k :: 0 <= k < |box| ==> box[k].focal.Some?
    ensures BoxPower(box, b) >= 0
  {
    var terms := seq(|box|, k requires 0 <= k < |box| => (b + 1) * (k + 1) * box[k].focal.value);
    assert forall k :: 0 <= k < |terms| ==> terms[k] >= 0;
    Arithmetic.SumNonNegative(terms);
  }

  /** The boxes' powers, in box order. */
  function BoxPowers(boxes: seq<Box>): (powers: seq<int>)
    requires AllFocal(boxes)
    ensures |powers| == |boxes| && forall b :: 0 <= b < |powers| ==> powers[b] >= 0
  {
    var powers := seq(|boxes|, b requires 0 <= b < |boxes| => BoxPower(boxes[b], b));
    forall b | 0 <= b < |boxes|
      ensures powers[b] >= 0
    {
      BoxPowerNonNegative(boxes[b], b);
    }
    powers
  }

  function FocusingPower(boxes: seq<Box>): (power: Option<int>)
    ensures power.Some? <==> AllFocal(boxes)
    ensures power.Some? ==> power.value >= 0
  {
    if !AllFocal(boxes) then None
    else
      var powers := BoxPowers(boxes);
      Arithmetic.SumNonNegative(powers);
      Some(Arithmetic.Sum(powers))
  }

  /** `runHASHMAP` on the array of boxes: the box the label hashes to is updated in place. */
  method RunHashMap(boxes: array<Box>, str: string) returns (error: Option<string>)
    requires boxes.Length == 256
    modifies boxes
    ensures error.None? <==> Apply(old(boxes[..]), str).Success?
    ensures error.None? ==> boxes[..] == Apply(old(boxes[..]), str).value
    ensures error.Some? ==> error.value == Apply(old(boxes[..]), str).error && boxes[..] == old(boxes[..])
  {
    var f := Match(str);
    var boxIndex := RunHash(f.name);
    var existing := Slot(boxes[boxIndex], f.name);
    if f.operator == "=" {
      var lens := Lens(f.name, Focal(f.digits));
      if existing.Some? {
        boxes[boxIndex] := boxes[boxIndex][existing.value := lens];
      } else {
        boxes[boxIndex] := boxes[boxIndex] + [lens];
      }
    } else if f.operator == "-" {
      if existing.Some? {
        boxes[boxIndex] := Remove(boxes[boxIndex], f.name);
      } else {
        RemoveAbsent(boxes[boxIndex], f.name);
      }
    } else {
      return Some("Invalid operator \"" + f.operator + "\" for command \"" + str + "\"");
    }
    error := None;
  }

  lemma {:induction false} RemoveAbsent(box: Box, name: string)
    requires forall i :: 0 <= i < |box| ==> box[i].name != name
    ensures Remove(box, name) == box
  {
    if box != [] {
      assert forall i :: 0 <= i < |box[1..]| ==> box[1..][i] == box[i + 1];
      RemoveAbsent(box[1..], name);
      assert [box[0]] + box[1..] == box;
    }
  }

  /** `part2`: every step on 256 fresh boxes, then the focusing power, or the first error. */
  method Part2(steps: seq<string>) returns (r: Result<Option<int>>)
    ensures ApplyAll(steps).Failure? ==> r == Failure(ApplyAll(steps).error)
    ensures ApplyAll(steps).Success? ==> r == Success(FocusingPower(ApplyAll(steps).value))
  {
    var boxes := new Box[256](_ => []);
    assert boxes[..] == EmptyBoxes();
    for i := 0 to |steps|
      invariant ApplyAll(steps[..i]) == Success(boxes[..])
    {
      assert steps[..i + 1][..i] == steps[..i];
      var error := RunHashMap(boxes, steps[i]);
      if error.Some? {
        FailureStays(steps, i + 1);
        return Failure(error.value);
      }
    }
    assert steps[..|steps|] == steps;
    r := Success(FocusingPower(boxes[..]));
  }

  /** Once a step fails, so does every longer run of steps, with the same error. */
  lemma {:induction false} FailureStays(steps: seq<string>, i: nat)
    requires i <= |steps| && ApplyAll(steps[..i]).Failure?
    ensures ApplyAll(steps) == ApplyAll(steps[..i])
    decreases |steps| - i
  {
    if i == |steps| {
      assert steps[..i] == steps;
    } else {
      assert steps[..i + 1][..i] == steps[..i];
      FailureStays(steps, i + 1);
    }
  }
}
