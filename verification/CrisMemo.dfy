/** The first best of a list of scores, where a full score ends the search. */
module BestMatch {
  import opened Options

  /** A score of 32 or more is a full match. */
  function Capped(x: int): int { if x > 32 then 32 else x }

  /** What the search has found among the first n entries. */
  function Best(score: nat -> int, n: nat): (r: Option<nat>)
    ensures r.Some? ==> r.value < n && score(r.value) >= 0
  {
    if n == 0 then None
    else
      var b := Best(score, n - 1);
      if b.Some? && score(b.value) >= 32 then b
      else if score(n - 1) > (if b.Some? then score(b.value) else -1) then Some(n - 1)
      else b
  }

  /** The best entry: nothing scores higher, full matches counting alike, and nothing
      before it scores as high; none if every entry is refused. */
  ghost predicate IsBest(score: nat -> int, n: nat, r: Option<nat>) {
    match r
    case None => forall j: nat :: j < n ==> score(j) < 0
    case Some(b) =>
      && b < n && score(b) >= 0
      && (forall j: nat :: j < n ==> Capped(score(j)) <= Capped(score(b)))
      && (forall j: nat :: j < b ==> Capped(score(j)) < Capped(score(b)))
  }

  lemma {:induction false} BestIsBest(score: nat -> int, n: nat)
    ensures IsBest(score, n, Best(score, n))
  {
    if n > 0 { BestIsBest(score, n - 1); }
  }

  lemma BestUnique(score: nat -> int, n: nat, r: Option<nat>, r': Option<nat>)
    requires IsBest(score, n, r) && IsBest(score, n, r')
    ensures r == r'
  {
  }

  lemma {:induction false} BestSame(score: nat -> int, score': nat -> int, n: nat)
    requires forall j: nat :: j < n ==> score(j) == score'(j)
    ensures Best(score, n) == Best(score', n)
  {
    if n > 0 { BestSame(score, score', n - 1); }
  }

  /** The code's loop: a running best, left early on a full match. */
  method Search(score: nat -> int, n: nat) returns (best: Option<nat>)
    ensures best == Best(score, n)
  {
    best := None;
    var max := -1;
    var i := 0;
    while i < n
      invariant i <= n && best == Best(score, i)
      invariant max == if best.Some? then score(best.value) else -1
      invariant max < 32
    {
      if score(i) > max {
        best, max := Some(i), score(i);
        if max >= 32 {
          FullStays(score, i + 1, n);
          return;
        }
      }
      i := i + 1;
    }
  }

  lemma {:induction false} FullStays(score: nat -> int, i: nat, n: nat)
    requires i <= n && Best(score, i).Some? && score(Best(score, i).value) >= 32
    ensures Best(score, n) == Best(score, i)
    decreases n
  {
    if i < n { FullStays(score, i, n - 1); }
  }
}

/**
 The CRIS disassembler's opcode lookup: a scan for the best matching table entry,
 remembered in tables that are kept per class of prefix, not per prefix. The opcode
 table is a parameter; what matters is that a scan sees a prefix only through its class.
 */
module CrisMemo {
  import opened BestMatch
  import opened Options

  type Insn = bv16

  const BDAP_QUICK_OPCODE: Insn := 0x0100
  const DIP_OPCODE: Insn := 0x0970

  datatype Version =
    | VersionAll | VWarning | V0_3 | V3p | V8 | V8p | VSim0_10 | V0_10 | V3_10 | V8_10 | V10 | V10p | V32p

  datatype Family = FamilyV0V10 | FamilyCommon | FamilyV32

  datatype SpecReg = SpecReg(number: Insn, size: nat, version: Version, warning: bool)

  datatype Opcode = Opcode(matching: Insn, lose: Insn, args: string, version: Version)

  datatype Env = Env(ops: seq<Opcode>, regs: seq<SpecReg>, family: Family)

  // ------------------------------------------------------------------ special registers

  predicate Listed(r: SpecReg, sreg: Insn, family: Family) {
    && r.number == sreg
    && if family == FamilyV32 then
         !r.warning && (r.version == VWarning || r.version == VersionAll || r.version == V3p || r.version == V8p
                        || r.version == V10p || r.version == V32p)
       else r.version != V32p
  }

  /** The size of the first register listed under the number, if any. */
  function RegSize(regs: seq<SpecReg>, sreg: Insn, family: Family): (r: Option<nat>)
    ensures SizesOk(regs) && r.Some? ==> r.value == 1 || r.value == 2 || r.value == 4
    decreases |regs|
  {
    if regs == [] then None
    else if Listed(regs[0], sreg, family) then Some(regs[0].size)
    else RegSize(regs[1..], sreg, family)
  }

  /** The first register listed under the number has n bytes. */
  ghost predicate HasSize(regs: seq<SpecReg>, sreg: Insn, family: Family, n: nat) {
    exists i :: 0 <= i < |regs| && Listed(regs[i], sreg, family) && regs[i].size == n
                && forall j :: 0 <= j < i ==> !Listed(regs[j], sreg, family)
  }

  ghost predicate Known(regs: seq<SpecReg>, sreg: Insn, family: Family) {
    exists i :: 0 <= i < |regs| && Listed(regs[i], sreg, family)
  }

  lemma {:induction false} RegSizeIff(regs: seq<SpecReg>, sreg: Insn, family: Family, n: nat)
    ensures RegSize(regs, sreg, family) == Some(n) <==> HasSize(regs, sreg, family, n)
    ensures RegSize(regs, sreg, family).Some? <==> Known(regs, sreg, family)
    decreases |regs|
  {
    if regs != [] && !Listed(regs[0], sreg, family) {
      var t := regs[1..];
      RegSizeIff(t, sreg, family, n);
      if HasSize(t, sreg, family, n) {
        var i :| 0 <= i < |t| && Listed(t[i], sreg, family) && t[i].size == n
                 && forall j :: 0 <= j < i ==> !Listed(t[j], sreg, family);
        assert regs[i + 1] == t[i];
        forall j | 0 <= j < i + 1 ensures !Listed(regs[j], sreg, family) {
          if j > 0 { assert regs[j] == t[j - 1]; }
        }
      }
      if HasSize(regs, sreg, family, n) {
        var i :| 0 <= i < |regs| && Listed(regs[i], sreg, family) && regs[i].size == n
                 && forall j :: 0 <= j < i ==> !Listed(regs[j], sreg, family);
        assert regs[i] == t[i - 1];
        forall j | 0 <= j < i - 1 ensures !Listed(t[j], sreg, family) { assert t[j] == regs[j + 1]; }
      }
      if Known(regs, sreg, family) {
        var i :| 0 <= i < |regs| && Listed(regs[i], sreg, family);
        assert regs[i] == t[i - 1];
      }
    }
  }

  predicate SizesOk(regs: seq<SpecReg>) {
    forall i :: 0 <= i < |regs| ==> regs[i].size == 1 || regs[i].size == 2 || regs[i].size == 4
  }

  const REGS_0_4: seq<SpecReg> := [
    SpecReg(0, 1, V32p, false), SpecReg(0, 1, VersionAll, false), SpecReg(1, 1, VersionAll, false),
    SpecReg(1, 1, VersionAll, false), SpecReg(2, 1, V32p, false), SpecReg(2, 1, V32p, false),
    SpecReg(2, 1, VWarning, false), SpecReg(3, 1, V32p, false), SpecReg(3, 1, V32p, false),
    SpecReg(3, 1, VWarning, false), SpecReg(4, 2, V32p, false), SpecReg(4, 2, VersionAll, false)
  ]

  const REGS_5_7: seq<SpecReg> := [
    SpecReg(5, 2, V0_10, false), SpecReg(5, 4, V32p, false), SpecReg(5, 2, V0_10, false),
    SpecReg(5, 4, V32p, false), SpecReg(6, 2, V0_3, false), SpecReg(6, 4, V32p, false),
    SpecReg(6, 2, V0_3, false), SpecReg(6, 4, V32p, false), SpecReg(7, 4, V10p, true),
    SpecReg(7, 2, V0_3, true), SpecReg(7, 4, V10p, false), SpecReg(7, 2, V0_3, false),
    SpecReg(7, 4, V10p, false), SpecReg(7, 2, V0_3, false)
  ]

  const REGS_8_11: seq<SpecReg> := [
    SpecReg(8, 4, V32p, false), SpecReg(8, 4, VersionAll, false), SpecReg(9, 4, V0_10, false),
    SpecReg(9, 4, V32p, false), SpecReg(9, 4, VersionAll, false), SpecReg(10, 4, V0_10, false),
    SpecReg(10, 4, V32p, false), SpecReg(10, 4, VersionAll, false), SpecReg(11, 4, VersionAll, false),
    SpecReg(11, 4, VersionAll, false)
  ]

  const REGS_12_15: seq<SpecReg> := [
    SpecReg(12, 4, VWarning, true), SpecReg(12, 4, V32p, false), SpecReg(12, 4, V8_10, false),
    SpecReg(12, 4, V0_3, false), SpecReg(12, 4, VersionAll, false), SpecReg(13, 4, VWarning, true),
    SpecReg(13, 4, V32p, false), SpecReg(13, 4, V8_10, false), SpecReg(13, 4, V0_3, false),
    SpecReg(13, 4, VersionAll, false), SpecReg(14, 4, V3_10, false), SpecReg(14, 4, V32p, false),
    SpecReg(14, 4, V3p, false), SpecReg(15, 4, V10, false), SpecReg(15, 4, V32p, false),
    SpecReg(15, 4, V10p, false)
  ]

  /** cris_spec_regs: number, size, version and whether it carries a warning, in the table's order. */
  const SPEC_REGS: seq<SpecReg> := REGS_0_4 + REGS_5_7 + REGS_8_11 + REGS_12_15

  lemma SpecRegSizes()
    ensures SizesOk(SPEC_REGS)
  {
    assert SizesOk(REGS_0_4);
    assert SizesOk(REGS_5_7);
    assert SizesOk(REGS_8_11);
    assert SizesOk(REGS_12_15);
  }

  method SpecRegInfo(e: Env, sreg: Insn) returns (r: Option<nat>)
    ensures r == RegSize(e.regs, sreg, e.family)
    ensures forall n: nat :: r == Some(n) <==> HasSize(e.regs, sreg, e.family, n)
  {
    forall n: nat ensures RegSize(e.regs, sreg, e.family) == Some(n) <==> HasSize(e.regs, sreg, e.family, n) {
      RegSizeIff(e.regs, sreg, e.family, n);
    }
    var i := 0;
    assert e.regs[0..] == e.regs;
    while i < |e.regs|
      invariant i <= |e.regs| && RegSize(e.regs, sreg, e.family) == RegSize(e.regs[i..], sreg, e.family)
    {
      if Listed(e.regs[i], sreg, e.family) { return Some(e.regs[i].size); }
      assert e.regs[i..][1..] == e.regs[i + 1..];
      i := i + 1;
    }
    r := None;
  }

  // ------------------------------------------------------------------ fields of an instruction

  function High(insn: Insn): Insn { (insn >> 12) & 15 }
  function Low(insn: Insn): Insn { insn & 15 }
  function SizeBits(insn: Insn): Insn { insn & 0x30 }
  predicate Postincrement(insn: Insn) { insn & 0x400 != 0 }
  predicate Matches(o: Opcode, insn: Insn) { o.matching & insn == o.matching && o.lose & insn == 0 }

  /** The signed low byte. */
  function Offset(insn: Insn): (r: int)
    ensures -128 <= r <= 127 && (r - (insn & 255) as int) % 256 == 0
  {
    var low := (insn & 255) as int;
    if low > 127 then low - 256 else low
  }

  // ------------------------------------------------------------------ counting bits

  function Cleared(v: Insn): Insn { v & (v - 1) }
  function Half(v: Insn): Insn { v >> 1 }
  predicate Odd(v: Insn) { v & 1 == 1 }

  lemma Smaller(v: Insn)
    requires v != 0
    ensures Cleared(v) < v && Half(v) < v
  {
  }

  /** The one bits, counted one by one. */
  function Ones(v: Insn): nat
    decreases v
  {
    if v == 0 then 0 else Smaller(v); (if Odd(v) then 1 else 0) + Ones(Half(v))
  }

  lemma OddCleared(v: Insn)
    requires Odd(v)
    ensures !Odd(Cleared(v)) && Half(Cleared(v)) == Half(v)
  {
  }

  lemma EvenCleared(v: Insn)
    requires v != 0 && !Odd(v)
    ensures !Odd(Cleared(v)) && Half(Cleared(v)) == Cleared(Half(v)) && Half(v) != 0
  {
  }

  lemma OnesHalved(v: Insn)
    ensures Ones(v) == (if Odd(v) then 1 else 0) + Ones(Half(v))
  {
    if v == 0 { assert Half(v) == 0 && !Odd(v); }
  }

  /** Clearing the lowest one bit takes away exactly one. */
  lemma {:induction false} ClearedCounts(v: Insn)
    requires v != 0
    ensures Ones(v) == 1 + Ones(Cleared(v))
    decreases v
  {
    OnesHalved(v);
    OnesHalved(Cleared(v));
    if Odd(v) {
      OddCleared(v);
    } else {
      EvenCleared(v);
      Smaller(v);
      ClearedCounts(Half(v));
    }
  }

  /** number_of_bits: clearing the lowest one bit until none is left. */
  method NumberOfBits(v: Insn) returns (bits: nat)
    ensures bits == Ones(v)
  {
    var val := v;
    bits := 0;
    while val != 0
      invariant bits + Ones(val) == Ones(v)
      decreases val
    {
      ClearedCounts(val);
      Smaller(val);
      val := Cleared(val);
      bits := bits + 1;
    }
  }

  // ------------------------------------------------------------------ constraints

  /** What a scan looks at of a prefix: the entry it was recognised as, and its offset. */
  datatype Prefix = Absent | Present(matching: Insn, offset: int)

  /** Offsets are signed bytes. */
  predicate PrefixOk(p: Prefix) { p.Present? ==> -128 <= p.offset <= 127 }

  /** A 32-bit unsigned negation. */
  function Negated(offset: int): int { if offset <= 0 then -offset else 0x1_0000_0000 - offset }

  function NextLetter(cs: string, i: nat): char
    requires i < |cs|
  {
    if i + 1 < |cs| then cs[i + 1] else '\0'
  }

  /** Whether the "push" prefix has the size of what is pushed. */
  predicate PushFits(e: Env, next: char, insn: Insn, p: Prefix) {
    && p.Present? && p.matching == BDAP_QUICK_OPCODE
    && if next == 'P' then
         var size := RegSize(e.regs, High(insn), e.family); size.Some? && size.value == Negated(p.offset)
       else next == 'R' && SizeBits(insn) == 0x20 && p.offset == -4
  }

  /** One constraint letter: no match, or the confidence and the prefix flag so far. */
  function Letter(e: Env, cs: string, i: nat, insn: Insn, p: Prefix, ret: int, ok: bool): Option<(int, bool)>
    requires i < |cs|
  {
    match cs[i]
    case '!' => if p.Present? || e.family != FamilyV0V10 then None else Some((ret, ok))
    case 'U' => None
    case 'M' => if High(insn) != 0 && High(insn) != 4 && High(insn) != 8 then None else Some((ret, ok))
    case 'm' => if SizeBits(insn) == 0x30 then None else Some((ret, ok))
    case 'S' => if p.Present? && !Postincrement(insn) then Some((ret, true)) else None
    case 's' => Operand(insn, p, ret, ok)
    case 'y' => Operand(insn, p, ret, ok)
    case 'Y' => Operand(insn, p, ret, ok)
    case 'B' => if PushFits(e, NextLetter(cs, i), insn, p) then Some((ret, true)) else None
    case 'D' => if High(insn) == Low(insn) then Some((5, ok)) else None
    case 'P' => if RegSize(e.regs, High(insn), e.family).Some? then Some((ret + 3, ok)) else None
    case _ => Some((ret, ok))
  }

  function Operand(insn: Insn, p: Prefix, ret: int, ok: bool): Option<(int, bool)> {
    if p.Absent? then Some((ret, ok))
    else if Postincrement(insn) && p.matching == DIP_OPCODE then None
    else Some((ret, true))
  }

  function ConstraintFrom(e: Env, cs: string, i: nat, insn: Insn, p: Prefix, ret: int, ok: bool): int
    requires i <= |cs|
    decreases |cs| - i
  {
    if i == |cs| then (if p.Present? && !ok then -1 else ret)
    else
      match Letter(e, cs, i, insn, p, ret, ok)
      case None => -1
      case Some((ret', ok')) => ConstraintFrom(e, cs, i + 1, insn, p, ret', ok')
  }

  /** The loop over the constraint letters. */
  method Constraint(e: Env, cs: string, insn: Insn, p: Prefix) returns (r: int)
    ensures r == ConstraintFrom(e, cs, 0, insn, p, 0, false)
    ensures SizesOk(e.regs) && PrefixOk(p) ==> r == if Fits(e, cs, insn, p) then Confidence(0, cs) else -1
  {
    if SizesOk(e.regs) && PrefixOk(p) { FitsIff(e, cs, insn, p); }
    var ret, ok := 0, false;
    for i := 0 to |cs|
      invariant ConstraintFrom(e, cs, 0, insn, p, 0, false) == ConstraintFrom(e, cs, i, insn, p, ret, ok)
    {
      var step := Letter(e, cs, i, insn, p, ret, ok);
      if step.None? { return -1; }
      ret, ok := step.value.0, step.value.1;
    }
    if p.Present? && !ok { return -1; }
    return ret;
  }

  // ------------------------------------------------------------------ when an operand string fits

  /** n bytes are pushed: of a special register, or of a general one as a double word. */
  ghost predicate Pushed(e: Env, next: char, insn: Insn, n: int) {
    || (next == 'P' && n >= 0 && HasSize(e.regs, High(insn), e.family, n))
    || (next == 'R' && SizeBits(insn) == 0x20 && n == 4)
  }

  predicate PrefixLetter(c: char) { c in {'S', 's', 'y', 'Y', 'B'} }

  predicate TakesPrefix(cs: string) { exists i :: 0 <= i < |cs| && PrefixLetter(cs[i]) }

  /** Every letter of an operand string that asks for something has it. */
  ghost predicate LettersFit(e: Env, cs: string, insn: Insn, p: Prefix) {
    && 'U' !in cs
    && ('!' in cs ==> p.Absent? && e.family == FamilyV0V10)
    && ('M' in cs ==> High(insn) in {0, 4, 8})
    && ('m' in cs ==> SizeBits(insn) != 0x30)
    && ('S' in cs ==> p.Present? && !Postincrement(insn))
    && (('s' in cs || 'y' in cs || 'Y' in cs) && p.Present? && Postincrement(insn) ==> p.matching != DIP_OPCODE)
    && ('D' in cs ==> High(insn) == Low(insn))
    && ('P' in cs ==> Known(e.regs, High(insn), e.family))
    && (forall i :: 0 <= i < |cs| && cs[i] == 'B' ==>
          p.Present? && p.matching == BDAP_QUICK_OPCODE && Pushed(e, NextLetter(cs, i), insn, -p.offset))
  }

  /** The operand string fits the instruction and the prefix: and a prefix has a letter that takes it. */
  ghost predicate Fits(e: Env, cs: string, insn: Insn, p: Prefix) {
    LettersFit(e, cs, insn, p) && (p.Present? ==> TakesPrefix(cs))
  }

  /** The confidence the letters give: three for each special register, counted from the last equal pair
      of registers on, which gives five. */
  function Confidence(base: int, cs: string): (r: int)
    ensures base >= 0 ==> r >= 0
    decreases |cs|
  {
    if cs == [] then base
    else Confidence(if cs[0] == 'D' then 5 else if cs[0] == 'P' then base + 3 else base, cs[1..])
  }

  lemma {:induction false} ConfidenceCounts(base: int, cs: string, d: nat)
    ensures 'D' !in cs ==> Confidence(base, cs) == base + 3 * multiset(cs)['P']
    ensures d < |cs| && cs[d] == 'D' && 'D' !in cs[d + 1..] ==>
              Confidence(base, cs) == 5 + 3 * multiset(cs[d + 1..])['P']
    decreases |cs|
  {
    if cs != [] {
      var next, t := if cs[0] == 'D' then 5 else if cs[0] == 'P' then base + 3 else base, cs[1..];
      assert cs == [cs[0]] + t;
      if d == 0 {
        ConfidenceCounts(next, t, 0);
      } else {
        ConfidenceCounts(next, t, d - 1);
        if d < |cs| { assert cs[d + 1..] == t[d..]; }
      }
    }
  }

  lemma PushFitsIff(e: Env, next: char, insn: Insn, p: Prefix)
    requires SizesOk(e.regs) && PrefixOk(p)
    ensures PushFits(e, next, insn, p)
            <==> p.Present? && p.matching == BDAP_QUICK_OPCODE && Pushed(e, next, insn, -p.offset)
  {
    if p.Present? && p.offset <= 0 { RegSizeIff(e.regs, High(insn), e.family, -p.offset); }
  }

  /** What one letter asks for. */
  ghost predicate OneFits(e: Env, c: char, next: char, insn: Insn, p: Prefix) {
    && c != 'U'
    && (c == '!' ==> p.Absent? && e.family == FamilyV0V10)
    && (c == 'M' ==> High(insn) in {0, 4, 8})
    && (c == 'm' ==> SizeBits(insn) != 0x30)
    && (c == 'S' ==> p.Present? && !Postincrement(insn))
    && (c in {'s', 'y', 'Y'} && p.Present? && Postincrement(insn) ==> p.matching != DIP_OPCODE)
    && (c == 'D' ==> High(insn) == Low(insn))
    && (c == 'P' ==> Known(e.regs, High(insn), e.family))
    && (c == 'B' ==> p.Present? && p.matching == BDAP_QUICK_OPCODE && Pushed(e, next, insn, -p.offset))
  }

  lemma LetterIff(e: Env, cs: string, i: nat, insn: Insn, p: Prefix, ret: int, ok: bool)
    requires SizesOk(e.regs) && PrefixOk(p) && i < |cs|
    ensures var c := cs[i];
            Letter(e, cs, i, insn, p, ret, ok)
            == if !OneFits(e, c, NextLetter(cs, i), insn, p) then None
               else Some((if c == 'D' then 5 else if c == 'P' then ret + 3 else ret,
                          ok || (p.Present? && PrefixLetter(c))))
  {
    PushFitsIff(e, NextLetter(cs, i), insn, p);
    RegSizeIff(e.regs, High(insn), e.family, 0);
  }

  lemma FitsFirst(e: Env, cs: string, insn: Insn, p: Prefix)
    requires cs != []
    ensures LettersFit(e, cs, insn, p)
            <==> OneFits(e, cs[0], NextLetter(cs, 0), insn, p) && LettersFit(e, cs[1..], insn, p)
  {
    var t := cs[1..];
    assert cs == [cs[0]] + t;
    forall i | 0 <= i < |t| ensures t[i] == cs[i + 1] && NextLetter(t, i) == NextLetter(cs, i + 1) {}
  }

  lemma TakesFirst(cs: string)
    requires cs != []
    ensures TakesPrefix(cs) <==> PrefixLetter(cs[0]) || TakesPrefix(cs[1..])
  {
    var t := cs[1..];
    forall i | 0 <= i < |t| ensures t[i] == cs[i + 1] {}
    if TakesPrefix(t) {
      var i :| 0 <= i < |t| && PrefixLetter(t[i]);
      assert PrefixLetter(cs[i + 1]);
    }
  }

  lemma {:induction false} ConstraintIff(e: Env, cs: string, i: nat, insn: Insn, p: Prefix, ret: int, ok: bool)
    requires SizesOk(e.regs) && PrefixOk(p) && i <= |cs| && (ok ==> p.Present?)
    ensures ConstraintFrom(e, cs, i, insn, p, ret, ok)
            == if LettersFit(e, cs[i..], insn, p) && (p.Present? ==> ok || TakesPrefix(cs[i..]))
               then Confidence(ret, cs[i..]) else -1
    decreases |cs| - i
  {
    if i < |cs| {
      var t := cs[i..];
      assert t[1..] == cs[i + 1..] && NextLetter(t, 0) == NextLetter(cs, i);
      LetterIff(e, cs, i, insn, p, ret, ok);
      FitsFirst(e, t, insn, p);
      TakesFirst(t);
      match Letter(e, cs, i, insn, p, ret, ok)
      case None =>
      case Some((ret', ok')) => ConstraintIff(e, cs, i + 1, insn, p, ret', ok');
    }
  }

  /** cris_constraint refuses exactly the operand strings that do not fit, and otherwise gives their confidence. */
  lemma FitsIff(e: Env, cs: string, insn: Insn, p: Prefix)
    requires SizesOk(e.regs) && PrefixOk(p)
    ensures ConstraintFrom(e, cs, 0, insn, p, 0, false) == if Fits(e, cs, insn, p) then Confidence(0, cs) else -1
  {
    ConstraintIff(e, cs, 0, insn, p, 0, false);
    assert cs[0..] == cs;
  }

  // ------------------------------------------------------------------ prefixes by class

  datatype Class = Plain | Dip | MinusOne | MinusTwo | MinusFour | Rest

  function ClassOf(p: Prefix): Class {
    if p.Absent? then Plain
    else if p.matching == BDAP_QUICK_OPCODE then
      if p.offset == -4 then MinusFour else if p.offset == -2 then MinusTwo
      else if p.offset == -1 then MinusOne else Rest
    else if p.matching == DIP_OPCODE then Dip
    else Rest
  }

  predicate SameClass(p: Prefix, q: Prefix) { PrefixOk(p) && PrefixOk(q) && ClassOf(p) == ClassOf(q) }

  /** A push prefix fits by its class alone, because a register has one, two or four bytes. */
  lemma PushByClass(e: Env, next: char, insn: Insn, p: Prefix, q: Prefix)
    requires SizesOk(e.regs) && SameClass(p, q)
    ensures PushFits(e, next, insn, p) == PushFits(e, next, insn, q)
  {
  }

  lemma LetterByClass(e: Env, cs: string, i: nat, insn: Insn, p: Prefix, q: Prefix, ret: int, ok: bool)
    requires SizesOk(e.regs) && SameClass(p, q) && i < |cs|
    ensures Letter(e, cs, i, insn, p, ret, ok) == Letter(e, cs, i, insn, q, ret, ok)
  {
    PushByClass(e, NextLetter(cs, i), insn, p, q);
  }

  /** The constraints see a prefix only through its class. */
  lemma {:induction false} ConstraintByClass(
      e: Env, cs: string, i: nat, insn: Insn, p: Prefix, q: Prefix, ret: int, ok: bool)
    requires SizesOk(e.regs) && SameClass(p, q) && i <= |cs|
    ensures ConstraintFrom(e, cs, i, insn, p, ret, ok) == ConstraintFrom(e, cs, i, insn, q, ret, ok)
    decreases |cs| - i
  {
    if i < |cs| {
      LetterByClass(e, cs, i, insn, p, q, ret, ok);
      match Letter(e, cs, i, insn, p, ret, ok)
      case None =>
      case Some((ret', ok')) => ConstraintByClass(e, cs, i + 1, insn, p, q, ret', ok');
    }
  }

  // ------------------------------------------------------------------ a fresh scan

  /** Versions the scan looks at; it aborts on V8, and outside v32 on V3_10, and here refuses them. */
  predicate Applies(v: Version, family: Family) {
    if family == FamilyV32 then v == VersionAll || v == V3p || v == V8p || v == V10p || v == V32p
    else v != V32p && v != V8 && v != V3_10
  }

  /** How well an entry matches; negative if it does not. */
  function Score(e: Env, k: nat, insn: Insn, p: Prefix): int {
    if k >= |e.ops| || !Applies(e.ops[k].version, e.family) || !Matches(e.ops[k], insn) then -1
    else
      var c := ConstraintFrom(e, e.ops[k].args, 0, insn, p, 0, false);
      if c < 0 then -1 else c + 2 * Ones(e.ops[k].matching | e.ops[k].lose)
  }

  function Scores(e: Env, insn: Insn, p: Prefix): nat -> int { (k: nat) => Score(e, k, insn, p) }

  function Scan(e: Env, insn: Insn, p: Prefix): (r: Option<nat>)
    ensures r.Some? ==> r.value < |e.ops|
  {
    Best(Scores(e, insn, p), |e.ops|)
  }

  /** The word 0 stands for no prefix; a word that is no instruction makes no prefix. */
  function PrefixOf(e: Env, word: Insn): Option<Prefix> {
    if word == 0 then Some(Absent)
    else
      match Scan(e, word, Absent)
      case None => None
      case Some(k) => Some(Present(e.ops[k].matching, Offset(word)))
  }

  /** What a lookup without any memory gives. */
  function Fresh(e: Env, insn: Insn, word: Insn): Option<nat> {
    match PrefixOf(e, word)
    case None => None
    case Some(p) => Scan(e, insn, p)
  }

  lemma ScanByClass(e: Env, insn: Insn, p: Prefix, q: Prefix)
    requires SizesOk(e.regs) && SameClass(p, q)
    ensures Scan(e, insn, p) == Scan(e, insn, q)
  {
    forall k: nat | k < |e.ops| ensures Scores(e, insn, p)(k) == Scores(e, insn, q)(k) {
      ConstraintByClass(e, e.ops[k].args, 0, insn, p, q, 0, false);
    }
    BestSame(Scores(e, insn, p), Scores(e, insn, q), |e.ops|);
  }

  // ------------------------------------------------------------------ what a scan chooses

  /** An entry the scan may take: made for the family, with the bits it fixes, and operands that fit. */
  ghost predicate Accepted(e: Env, o: Opcode, insn: Insn, p: Prefix) {
    Applies(o.version, e.family) && Matches(o, insn) && Fits(e, o.args, insn, p)
  }

  /** Two for each bit the entry fixes, and the confidence of its operands. */
  function Level(o: Opcode): (r: int)
    ensures r >= 0
  {
    Confidence(0, o.args) + 2 * Ones(o.matching | o.lose)
  }

  lemma ScoreIff(e: Env, k: nat, insn: Insn, p: Prefix)
    requires SizesOk(e.regs) && PrefixOk(p) && k < |e.ops|
    ensures Score(e, k, insn, p) == if Accepted(e, e.ops[k], insn, p) then Level(e.ops[k]) else -1
  {
    FitsIff(e, e.ops[k].args, insn, p);
  }

  /** The entry a scan should give: the first accepted one of the highest level, levels from 32 on
      counting alike; none if none is accepted. */
  ghost predicate Chosen(e: Env, insn: Insn, p: Prefix, r: Option<nat>) {
    match r
    case None => forall j :: 0 <= j < |e.ops| ==> !Accepted(e, e.ops[j], insn, p)
    case Some(b) =>
      && b < |e.ops| && Accepted(e, e.ops[b], insn, p)
      && (forall j :: 0 <= j < |e.ops| && Accepted(e, e.ops[j], insn, p) ==>
            Capped(Level(e.ops[j])) <= Capped(Level(e.ops[b])))
      && (forall j :: 0 <= j < b && Accepted(e, e.ops[j], insn, p) ==>
            Capped(Level(e.ops[j])) < Capped(Level(e.ops[b])))
  }

  /** A fresh scan gives that entry and no other. */
  lemma ScanChooses(e: Env, insn: Insn, p: Prefix, r: Option<nat>)
    requires SizesOk(e.regs) && PrefixOk(p)
    ensures r == Scan(e, insn, p) <==> Chosen(e, insn, p, r)
  {
    var score := Scores(e, insn, p);
    forall k: nat | k < |e.ops|
      ensures score(k) == if Accepted(e, e.ops[k], insn, p) then Level(e.ops[k]) else -1
    {
      ScoreIff(e, k, insn, p);
    }
    ChosenIsBest(e, insn, p, score, r);
    ScanIsBest(e, insn, p);
    if IsBest(score, |e.ops|, r) { BestUnique(score, |e.ops|, r, Scan(e, insn, p)); }
  }

  lemma ChosenIsBest(e: Env, insn: Insn, p: Prefix, score: nat -> int, r: Option<nat>)
    requires forall k: nat :: k < |e.ops| ==>
               score(k) == if Accepted(e, e.ops[k], insn, p) then Level(e.ops[k]) else -1
    ensures Chosen(e, insn, p, r) <==> IsBest(score, |e.ops|, r)
  {
  }

  /** The first and the last processor version an entry is for, up to 32; a warning is for the old ones. */
  function First(v: Version): nat {
    match v
    case VersionAll => 0 case VWarning => 0 case V0_3 => 0 case VSim0_10 => 0 case V0_10 => 0
    case V3p => 3 case V3_10 => 3
    case V8 => 8 case V8p => 8 case V8_10 => 8
    case V10 => 10 case V10p => 10
    case V32p => 32
  }

  function Last(v: Version): nat {
    match v
    case V0_3 => 3
    case V8 => 8
    case VWarning => 10 case VSim0_10 => 10 case V0_10 => 10 case V3_10 => 10 case V8_10 => 10 case V10 => 10
    case VersionAll => 32 case V3p => 32 case V8p => 32 case V10p => 32 case V32p => 32
  }

  /** The versions of an entry decide for which families it is: v32 takes what reaches up to version 32, the
      others what starts at version 10 or before; of the special registers v32 also takes the warnings. */
  lemma FamiliesByVersion(v: Version, family: Family, r: SpecReg)
    ensures v != V8 && v != V3_10 ==>
              (Applies(v, family) <==> if family == FamilyV32 then Last(v) == 32 else First(v) <= 10)
    ensures Listed(r, r.number, family)
            <==> if family == FamilyV32 then !r.warning && (r.version == VWarning || Last(r.version) == 32)
                 else First(r.version) <= 10
  {
  }

  /** The fields are where the instruction word has them: the registers in the top and the bottom four
      bits, the size in bits 4 and 5, postincrement in bit 10. */
  lemma FieldsOf(high: Insn, post: bool, mid: Insn, size: Insn, low: Insn)
    requires high < 16 && low < 16 && size < 4 && mid & 0xf43f == 0
    ensures var insn := (high << 12) | (if post then 0x400 else 0) | mid | (size << 4) | low;
            High(insn) == high && Low(insn) == low && SizeBits(insn) == size << 4 && Postincrement(insn) == post
  {
  }

  /** A fresh scan finds the first best entry of the table. */
  lemma ScanIsBest(e: Env, insn: Insn, p: Prefix)
    ensures IsBest(Scores(e, insn, p), |e.ops|, Scan(e, insn, p))
  {
    BestIsBest(Scores(e, insn, p), |e.ops|);
  }

  // ------------------------------------------------------------------ the memo

  /** The opcode and register tables, whatever the family. */
  datatype Tables = Tables(ops: seq<Opcode>, regs: seq<SpecReg>)

  function EnvOf(t: Tables, family: Family): Env { Env(t.ops, t.regs, family) }

  /** A slot of the tables: one table per class of prefix, one slot per instruction. */
  type Slot = (Class, Insn)

  /** The static tables, shared by the families, and who filled each slot. */
  datatype Memo = Memo(entries: map<Slot, nat>, filler: map<Slot, Family>)

  const EMPTY := Memo(map[], map[])

  datatype Query = Query(family: Family, insn: Insn, prefix: Insn)

  /** A lookup in the table of the prefix's class, with a scan on a miss. */
  function Find(t: Tables, m: Memo, family: Family, insn: Insn, p: Prefix): (r: (Memo, Option<nat>)) {
    var slot := (ClassOf(p), insn);
    if slot in m.entries then (m, Some(m.entries[slot]))
    else
      var k := Scan(EnvOf(t, family), insn, p);
      (if k.Some? then Memo(m.entries[slot := k.value], m.filler[slot := family]) else m, k)
  }

  /** get_opcode_entry: the prefix is looked up first, in the same tables. */
  function LookUp(t: Tables, m: Memo, q: Query): (Memo, Option<nat>) {
    if q.prefix == 0 then Find(t, m, q.family, q.insn, Absent)
    else
      var (m1, k) := Find(t, m, q.family, q.prefix, Absent);
      if k.None? || k.value >= |t.ops| then (m1, None)
      else Find(t, m1, q.family, q.insn, Present(t.ops[k.value].matching, Offset(q.prefix)))
  }

  function Run(t: Tables, qs: seq<Query>): Memo {
    if qs == [] then EMPTY else LookUp(t, Run(t, qs[..|qs| - 1]), qs[|qs| - 1]).0
  }

  /** Every filled slot holds what the family that filled it finds, for any prefix of the class. */
  ghost predicate MemoOk(t: Tables, m: Memo) {
    && m.filler.Keys == m.entries.Keys
    && forall insn, p :: PrefixOk(p) && (ClassOf(p), insn) in m.entries ==>
         Scan(EnvOf(t, m.filler[(ClassOf(p), insn)]), insn, p) == Some(m.entries[(ClassOf(p), insn)])
  }

  /** The family whose scan a lookup of a slot gives: who filled it first, or whoever asks. */
  function Owner(m: Memo, slot: Slot, family: Family): Family {
    if slot in m.filler then m.filler[slot] else family
  }

  /** A lookup gives the owner's scan, keeps what is filled, and records who fills. */
  lemma FindGives(t: Tables, m: Memo, family: Family, insn: Insn, p: Prefix)
    requires SizesOk(t.regs) && MemoOk(t, m) && PrefixOk(p)
    ensures var (m', r) := Find(t, m, family, insn, p);
            && MemoOk(t, m') && r == Scan(EnvOf(t, Owner(m, (ClassOf(p), insn), family)), insn, p)
            && (forall slot :: slot in m.entries ==>
                  slot in m'.entries && m'.entries[slot] == m.entries[slot] && m'.filler[slot] == m.filler[slot])
            && (forall slot :: slot in m'.filler && slot !in m.filler ==>
                  m'.filler[slot] == family && slot == (ClassOf(p), insn))
  {
    var slot := (ClassOf(p), insn);
    if slot !in m.entries {
      forall q | PrefixOk(q) && ClassOf(q) == ClassOf(p)
        ensures Scan(EnvOf(t, family), insn, q) == Scan(EnvOf(t, family), insn, p)
      {
        ScanByClass(EnvOf(t, family), insn, q, p);
      }
    }
  }

  /** What a prefix word is taken for: the scan of the family that owns its slot. */
  function Seen(t: Tables, m: Memo, family: Family, word: Insn): Option<Prefix> {
    PrefixOf(EnvOf(t, Owner(m, (Plain, word), family)), word)
  }

  /** What a lookup gives with a memo m: prefix and instruction each by the owner of its slot. */
  function Remembered(t: Tables, m: Memo, q: Query): Option<nat> {
    match Seen(t, m, q.family, q.prefix)
    case None => None
    case Some(p) => Scan(EnvOf(t, Owner(m, (ClassOf(p), q.insn), q.family)), q.insn, p)
  }

  lemma LookUpGives(t: Tables, m: Memo, q: Query)
    requires SizesOk(t.regs) && MemoOk(t, m)
    ensures var (m', r) := LookUp(t, m, q);
            && MemoOk(t, m') && r == Remembered(t, m, q)
            && (forall slot :: slot in m.entries ==>
                  slot in m'.entries && m'.entries[slot] == m.entries[slot] && m'.filler[slot] == m.filler[slot])
            && (forall slot :: slot in m'.filler && slot !in m.filler ==> m'.filler[slot] == q.family)
  {
    if q.prefix == 0 {
      FindGives(t, m, q.family, q.insn, Absent);
    } else {
      FindGives(t, m, q.family, q.prefix, Absent);
      var (m1, k) := Find(t, m, q.family, q.prefix, Absent);
      if k.Some? {
        FindGives(t, m1, q.family, q.insn, Present(t.ops[k.value].matching, Offset(q.prefix)));
      }
    }
  }

  /** After any history of lookups, in any families, each filled slot holds the scan of the
      family that filled it, */
  lemma {:induction false} HistoryOk(t: Tables, qs: seq<Query>)
    requires SizesOk(t.regs)
    ensures MemoOk(t, Run(t, qs))
  {
    if qs != [] {
      HistoryOk(t, qs[..|qs| - 1]);
      LookUpGives(t, Run(t, qs[..|qs| - 1]), qs[|qs| - 1]);
    }
  }

  /** and no later lookup changes it: the first to fill a slot owns it. */
  lemma {:induction false} FirstFills(t: Tables, qs: seq<Query>, n: nat, slot: Slot)
    requires SizesOk(t.regs) && n <= |qs| && slot in Run(t, qs[..n]).entries
    ensures var before, after := Run(t, qs[..n]), Run(t, qs);
            slot in before.filler && slot in after.entries && slot in after.filler
            && after.entries[slot] == before.entries[slot] && after.filler[slot] == before.filler[slot]
    decreases |qs|
  {
    HistoryOk(t, qs[..n]);
    if n == |qs| {
      assert qs[..n] == qs;
    } else {
      var init := qs[..|qs| - 1];
      assert init[..n] == qs[..n];
      FirstFills(t, init, n, slot);
      HistoryOk(t, init);
      LookUpGives(t, Run(t, init), qs[|qs| - 1]);
      HistoryOk(t, qs);
    }
  }

  /** What a family's scan finds for an instruction behind a prefix, if there is one to go by. */
  function FoundBy(t: Tables, family: Family, insn: Insn, p: Option<Prefix>): Option<nat> {
    match p
    case None => None
    case Some(x) => Scan(EnvOf(t, family), insn, x)
  }

  /** So a lookup after any history, with a prefix or without, gives what the owners of its slots
      find: the prefix as the owner of its slot reads it, the instruction behind that prefix as
      the owner of its slot reads it. It is right if and only if its own family finds the same
      by its own reading of both. */
  lemma RightIff(t: Tables, qs: seq<Query>, q: Query)
    requires SizesOk(t.regs)
    ensures var m := Run(t, qs);
            var first := Owner(m, (Plain, q.prefix), q.family);
            var read, own := PrefixOf(EnvOf(t, first), q.prefix), PrefixOf(EnvOf(t, q.family), q.prefix);
            var second := if read.None? then q.family else Owner(m, (ClassOf(read.value), q.insn), q.family);
            && LookUp(t, m, q).1 == FoundBy(t, second, q.insn, read)
            && (LookUp(t, m, q).1 == Fresh(EnvOf(t, q.family), q.insn, q.prefix)
                <==> FoundBy(t, second, q.insn, read) == FoundBy(t, q.family, q.insn, own))
  {
    HistoryOk(t, qs);
    LookUpGives(t, Run(t, qs), q);
  }

  /** With one family throughout, every lookup gives the best entry a fresh scan finds. */
  lemma OneFamily(t: Tables, qs: seq<Query>, q: Query)
    requires SizesOk(t.regs) && forall i :: 0 <= i < |qs| ==> qs[i].family == q.family
    ensures var e, r := EnvOf(t, q.family), LookUp(t, Run(t, qs), q).1;
            && r == Fresh(e, q.insn, q.prefix)
            && var p := PrefixOf(e, q.prefix);
               if p.Some? then Chosen(e, q.insn, p.value, r) else r == None
  {
    HistoryOk(t, qs);
    LookUpGives(t, Run(t, qs), q);
    OwnersSame(t, qs, q.family);
    var e := EnvOf(t, q.family);
    var p := PrefixOf(e, q.prefix);
    if p.Some? { ScanChooses(e, q.insn, p.value, Scan(e, q.insn, p.value)); }
  }

  lemma {:induction false} OwnersSame(t: Tables, qs: seq<Query>, family: Family)
    requires SizesOk(t.regs) && forall i :: 0 <= i < |qs| ==> qs[i].family == family
    ensures forall slot :: slot in Run(t, qs).filler ==> Run(t, qs).filler[slot] == family
  {
    if qs != [] {
      var init := qs[..|qs| - 1];
      OwnersSame(t, init, family);
      HistoryOk(t, init);
      LookUpGives(t, Run(t, init), qs[|qs| - 1]);
    }
  }

  lemma AllOnes()
    ensures Ones(0xffff) == 16
  {
    FourOnes(0xffff, 0x0fff);
    FourOnes(0x0fff, 0x00ff);
    FourOnes(0x00ff, 0x000f);
    FourOnes(0x000f, 0);
  }

  lemma FourOnes(v: Insn, w: Insn)
    requires v & 15 == 15 && v >> 4 == w
    ensures Ones(v) == 4 + Ones(w)
  {
    var a, b, c := Half(v), Half(Half(v)), Half(Half(Half(v)));
    assert Odd(v) && Odd(a) && Odd(b) && Odd(c) && Half(c) == w;
    OnesHalved(v);
    OnesHalved(a);
    OnesHalved(b);
    OnesHalved(c);
  }

  /** An entry without operands whose bits are all fixed matches fully where it applies. */
  lemma FullScore(e: Env, k: nat, insn: Insn)
    requires k < |e.ops| && e.ops[k].args == "" && e.ops[k].matching | e.ops[k].lose == 0xffff
    requires Matches(e.ops[k], insn)
    ensures Scores(e, insn, Absent)(k) == if Applies(e.ops[k].version, e.family) then 32 else -1
  {
    AllOnes();
  }

  /** Whenever v32 finds an entry for an instruction that only v32 takes, a v32 lookup followed
      by one for v0 to v10 gives the second an entry it refuses. */
  lemma StaleWhere(t: Tables, k: nat, insn: Insn)
    requires k < |t.ops| && t.ops[k].version == V32p && Scan(EnvOf(t, FamilyV32), insn, Absent) == Some(k)
    ensures var first, q := Query(FamilyV32, insn, 0), Query(FamilyV0V10, insn, 0);
            LookUp(t, Run(t, [first]), q).1 == Some(k) && Fresh(EnvOf(t, FamilyV0V10), insn, 0) != Some(k)
  {
    Refuses(EnvOf(t, FamilyV0V10), k, insn, Absent);
    LookUpTwice(t, Query(FamilyV32, insn, 0), Query(FamilyV0V10, insn, 0), k);
  }

  lemma Refuses(e: Env, k: nat, insn: Insn, p: Prefix)
    requires k < |e.ops| && !Applies(e.ops[k].version, e.family)
    ensures Scan(e, insn, p) != Some(k)
  {
    assert Scores(e, insn, p)(k) == -1;
  }

  lemma FirstFull(e: Env, k: nat, insn: Insn)
    requires k < |e.ops| && e.ops[k].args == "" && e.ops[k].matching | e.ops[k].lose == 0xffff
    requires Matches(e.ops[k], insn) && Applies(e.ops[k].version, e.family)
    requires forall j :: 0 <= j < k ==> !Matches(e.ops[j], insn)
    ensures Scan(e, insn, Absent) == Some(k)
  {
    var score := Scores(e, insn, Absent);
    FullScore(e, k, insn);
    forall j: nat | j < k ensures score(j) == -1 {}
    FullIsBest(score, |e.ops|, k);
    ScanIsBest(e, insn, Absent);
    BestUnique(score, |e.ops|, Scan(e, insn, Absent), Some(k));
  }

  lemma FullIsBest(score: nat -> int, n: nat, k: nat)
    requires k < n && score(k) == 32 && forall j: nat :: j < k ==> score(j) == -1
    ensures IsBest(score, n, Some(k))
  {
  }

  /** A slot filled once answers whoever asks next. */
  lemma LookUpTwice(t: Tables, first: Query, q: Query, k: nat)
    requires first.prefix == q.prefix == 0 && first.insn == q.insn
    requires Scan(EnvOf(t, first.family), first.insn, Absent) == Some(k)
    ensures LookUp(t, Run(t, [first]), q).1 == Some(k)
  {
    assert [first][..0] == [];
    assert Run(t, [first]) == Find(t, EMPTY, first.family, first.insn, Absent).0;
  }

  /** The code: tables filled in place, on demand. */
  class Lookup {
    const t: Tables
    var entries: map<Slot, nat>
    ghost var filler: map<Slot, Family>

    constructor (t: Tables)
      ensures this.t == t && View() == EMPTY
    {
      this.t, entries, filler := t, map[], map[];
    }

    ghost function View(): Memo
      reads this
    {
      Memo(entries, filler)
    }

    method FindEntry(family: Family, insn: Insn, p: Prefix) returns (r: Option<nat>)
      modifies this
      ensures (View(), r) == Find(t, old(View()), family, insn, p)
    {
      var slot := (ClassOf(p), insn);
      if slot in entries {
        r := Some(entries[slot]);
      } else {
        r := Search(Scores(EnvOf(t, family), insn, p), |t.ops|);
        if r.Some? { entries, filler := entries[slot := r.value], filler[slot := family]; }
      }
    }

    /** get_opcode_entry, for any family over the same tables. */
    method GetOpcodeEntry(family: Family, insn: Insn, prefixInsn: Insn) returns (r: Option<nat>)
      modifies this
      ensures (View(), r) == LookUp(t, old(View()), Query(family, insn, prefixInsn))
    {
      var p := Absent;
      if prefixInsn != 0 {
        var k := FindEntry(family, prefixInsn, Absent);
        if k.None? || k.value >= |t.ops| { return None; }
        p := Present(t.ops[k.value].matching, Offset(prefixInsn));
      }
      r := FindEntry(family, insn, p);
    }
  }
}
