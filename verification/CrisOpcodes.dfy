/** The opcode table of the disassembler, and a lookup that goes wrong on it. */
module CrisOpcodes {
  import opened Options
  import opened BestMatch
  import opened CrisMemo

  const OPCODES_0: seq<Opcode> := [
    Opcode(0x06b0, 0x0940, "r,R", VersionAll),          // abs
    Opcode(0x0600, 0x09c0, "m r,R", VersionAll),        // add
    Opcode(0x0a00, 0x01c0, "m s,R", VersionAll),        // add
    Opcode(0x0a00, 0x01c0, "m S,D", V0_10),             // add
    Opcode(0x0a00, 0x05c0, "m S,R,r", V0_10),           // add
    Opcode(0x0a00, 0x01c0, "m s,R", V32p),              // add
    Opcode(0x0570, 0x0a80, "r,R", V32p),                // addc
    Opcode(0x09a0, 0x0250, "s,R", V32p),                // addc
    Opcode(0x0540, 0x0a80, "x,r,A", V32p),              // addi
    Opcode(0x0500, 0x0ac0, "x,r", VersionAll),          // addi
    Opcode(0x0100, 0x0e00, "Q,A", V32p),                // addoq
    Opcode(0x0940, 0x0280, "m s,R,A", V32p),            // addo
    Opcode(0x0100, 0x0e00, "O,A", V32p),                // addo
    Opcode(0x0200, 0x0dc0, "I,R", VersionAll),          // addq
    Opcode(0x0420, 0x0bc0, "z r,R", VersionAll),        // adds
    Opcode(0x0820, 0x03c0, "z s,R", VersionAll),        // adds
    Opcode(0x0820, 0x03c0, "z S,D", V0_10),             // adds
    Opcode(0x0820, 0x07c0, "z S,R,r", V0_10),           // adds
    Opcode(0x0400, 0x0be0, "z r,R", VersionAll),        // addu
    Opcode(0x0800, 0x03e0, "z s,R", VersionAll),        // addu
    Opcode(0x0800, 0x03e0, "z S,D", V0_10),             // addu
    Opcode(0x0800, 0x07e0, "z S,R,r", V0_10),           // addu
    Opcode(0x0700, 0x08c0, "m r,R", VersionAll),        // and
    Opcode(0x0b00, 0x00c0, "m s,R", VersionAll)         // and
  ]

  const OPCODES_1: seq<Opcode> := [
    Opcode(0x0b00, 0x00c0, "m S,D", V0_10),             // and
    Opcode(0x0b00, 0x04c0, "m S,R,r", V0_10),           // and
    Opcode(0x0300, 0x0cc0, "i,R", VersionAll),          // andq
    Opcode(0x0780, 0x0840, "m r,R", VersionAll),        // asr
    Opcode(0x03a0, 0x0c40, "c,R", VersionAll),          // asrq
    Opcode(0x15b0, 0xea4f, "", VersionAll),             // ax
    Opcode(0x0dff, 0x0200, "b", VersionAll),            // b
    Opcode(0xe000, 0x1f00, "o", VersionAll),            // ba
    Opcode(0x0ebf, 0xf140, "n", V32p),                  // ba
    Opcode(0x0ebf, 0x0140, "n,P", V32p),                // bas
    Opcode(0x0eff, 0x0100, "n,P", V32p),                // basc
    Opcode(0x0000, 0xff00, "o", VersionAll),            // bcc
    Opcode(0x1000, 0xef00, "o", VersionAll),            // bcs
    Opcode(0x0940, 0x0280, "pm s,R", V0_10),            // bdap
    Opcode(0x0100, 0x0e00, "pO", V0_10),                // bdap
    Opcode(0x3000, 0xcf00, "o", VersionAll),            // beq
    Opcode(0xf000, 0x0f00, "o", V10),                   // bwf
    Opcode(0xf000, 0x0f00, "o", V0_3),                  // bext
    Opcode(0xa000, 0x5f00, "o", VersionAll),            // bge
    Opcode(0xc000, 0x3f00, "o", VersionAll),            // bgt
    Opcode(0x9000, 0x6f00, "o", VersionAll),            // bhi
    Opcode(0x0000, 0xff00, "o", VersionAll),            // bhs
    Opcode(0x0540, 0x0a80, "pm r,R", V0_10),            // biap
    Opcode(0xd000, 0x2f00, "o", VersionAll)             // ble
  ]

  const OPCODES_2: seq<Opcode> := [
    Opcode(0x1000, 0xef00, "o", VersionAll),            // blo
    Opcode(0x8000, 0x7f00, "o", VersionAll),            // bls
    Opcode(0xb000, 0x4f00, "o", VersionAll),            // blt
    Opcode(0x7000, 0x8f00, "o", VersionAll),            // bmi
    Opcode(0x0ab0, 0x0140, "s,R", VSim0_10),            // bmod
    Opcode(0x0ab0, 0x0140, "S,D", VSim0_10),            // bmod
    Opcode(0x0ab0, 0x0540, "S,R,r", VSim0_10),          // bmod
    Opcode(0x2000, 0xdf00, "o", VersionAll),            // bne
    Opcode(0x05c0, 0x0a00, "m r,R", VersionAll),        // bound
    Opcode(0x09c0, 0x0200, "m s,R", V0_10),             // bound
    Opcode(0x0dcf, 0x0200, "m Y,R", VersionAll),        // bound
    Opcode(0x09c0, 0x0200, "m S,D", V0_10),             // bound
    Opcode(0x09c0, 0x0600, "m S,R,r", V0_10),           // bound
    Opcode(0x6000, 0x9f00, "o", VersionAll),            // bpl
    Opcode(0xe930, 0x16c0, "C", V3p),                   // break
    Opcode(0xf000, 0x0f00, "o", V32p),                  // bsb
    Opcode(0xbebf, 0x4140, "n", V32p),                  // bsr
    Opcode(0xbeff, 0x4100, "n", V32p),                  // bsrc
    Opcode(0x0af0, 0x0100, "s,R", VWarning),            // bstore
    Opcode(0x0af0, 0x0100, "S,D", VWarning),            // bstore
    Opcode(0x0af0, 0x0500, "S,R,r", VWarning),          // bstore
    Opcode(0x04f0, 0x0b00, "r,R", VersionAll),          // btst
    Opcode(0x0380, 0x0c60, "c,R", VersionAll),          // btstq
    Opcode(0x4000, 0xbf00, "o", VersionAll)             // bvc
  ]

  const OPCODES_3: seq<Opcode> := [
    Opcode(0x5000, 0xaf00, "o", VersionAll),            // bvs
    Opcode(0x0670, 0x3980, "M r", VersionAll),          // clear
    Opcode(0x0a70, 0x3180, "M y", VersionAll),          // clear
    Opcode(0x0a70, 0x3180, "M S", V0_10),               // clear
    Opcode(0x05f0, 0x0a00, "f", VersionAll),            // clearf
    Opcode(0x06c0, 0x0900, "m r,R", VersionAll),        // cmp
    Opcode(0x0ac0, 0x0100, "m s,R", VersionAll),        // cmp
    Opcode(0x0ac0, 0x0100, "m S,D", V0_10),             // cmp
    Opcode(0x02c0, 0x0d00, "i,R", VersionAll),          // cmpq
    Opcode(0x08e0, 0x0300, "z s,R", VersionAll),        // cmps
    Opcode(0x08e0, 0x0300, "z S,D", V0_10),             // cmps
    Opcode(0x08c0, 0x0320, "z s,R", VersionAll),        // cmpu
    Opcode(0x08c0, 0x0320, "z S,D", V0_10),             // cmpu
    Opcode(0x25f0, 0xda0f, "", VersionAll),             // di
    Opcode(0x0970, 0xf280, "ps", V0_10),                // dip
    Opcode(0x0980, 0x0640, "m R,r", VersionAll),        // div
    Opcode(0x06f0, 0x0900, "r,R", VersionAll),          // dstep
    Opcode(0x25b0, 0xda4f, "", VersionAll),             // ei
    Opcode(0x0ab0, 0xf540, "[r]", V32p),                // fidxd
    Opcode(0x0d30, 0xf2c0, "[r]", V32p),                // fidxi
    Opcode(0x1ab0, 0xe540, "[r]", V32p),                // ftagd
    Opcode(0x1d30, 0xe2c0, "[r]", V32p),                // ftagi
    Opcode(0xf930, 0x06cf, "", V32p),                   // halt
    Opcode(0x09b0, 0x0640, "r,P", V32p)                 // jas
  ]

  const OPCODES_4: seq<Opcode> := [
    Opcode(0x0dbf, 0x0240, "N,P", V32p),                // jas
    Opcode(0x0b30, 0x04c0, "r,P", V32p),                // jasc
    Opcode(0x0f3f, 0x00c0, "N,P", V32p),                // jasc
    Opcode(0x69b0, 0x9640, "r", V8_10),                 // jbrc
    Opcode(0x6930, 0x92c0, "s", V8_10),                 // jbrc
    Opcode(0x6930, 0x92c0, "S", V8_10),                 // jbrc
    Opcode(0xa9b0, 0x5640, "r", V8_10),                 // jir
    Opcode(0xa930, 0x52c0, "s", V8_10),                 // jir
    Opcode(0xa930, 0x52c0, "S", V8_10),                 // jir
    Opcode(0x29b0, 0xd640, "r", V8_10),                 // jirc
    Opcode(0x2930, 0xd2c0, "s", V8_10),                 // jirc
    Opcode(0x2930, 0xd2c0, "S", V8_10),                 // jirc
    Opcode(0xb9b0, 0x4640, "r", VersionAll),            // jsr
    Opcode(0xb930, 0x42c0, "s", V0_10),                 // jsr
    Opcode(0xbdbf, 0x4240, "N", V32p),                  // jsr
    Opcode(0xb930, 0x42c0, "S", V0_10),                 // jsr
    Opcode(0x39b0, 0xc640, "r", V8_10),                 // jsrc
    Opcode(0x3930, 0xc2c0, "s", V8_10),                 // jsrc
    Opcode(0x3930, 0xc2c0, "S", V8_10),                 // jsrc
    Opcode(0xbb30, 0x44c0, "r", V32p),                  // jsrc
    Opcode(0xbf3f, 0x40c0, "N", V32p),                  // jsrc
    Opcode(0x09b0, 0xf640, "r", VersionAll),            // jump
    Opcode(0x0930, 0xf2c0, "s", V0_10),                 // jump
    Opcode(0x0930, 0xf2c0, "S", V0_10)                  // jump
  ]

  const OPCODES_5: seq<Opcode> := [
    Opcode(0x09f0, 0x060f, "P", V32p),                  // jump
    Opcode(0x0dbf, 0xf240, "N", V32p),                  // jump
    Opcode(0x8930, 0x72c0, "s", V10),                   // jmpu
    Opcode(0x8930, 0x72c0, "S", V10),                   // jmpu
    Opcode(0x0970, 0x0680, "U,R", V32p),                // lapc
    Opcode(0x0d7f, 0x0280, "dn,R", V32p),               // lapc
    Opcode(0x0970, 0x0680, "u,R", V32p),                // lapcq
    Opcode(0x04c0, 0x0b00, "m r,R", VersionAll),        // lsl
    Opcode(0x03c0, 0x0c20, "c,R", VersionAll),          // lslq
    Opcode(0x07c0, 0x0800, "m r,R", VersionAll),        // lsr
    Opcode(0x03e0, 0x0c00, "c,R", VersionAll),          // lsrq
    Opcode(0x0730, 0x08c0, "r,R", V3p),                 // lz
    Opcode(0x07f0, 0x0800, "P,r", V32p),                // mcp
    Opcode(0x0640, 0x0980, "m r,R", VersionAll),        // move
    Opcode(0x0a40, 0x0180, "m s,R", VersionAll),        // move
    Opcode(0x0a40, 0x0180, "m S,D", V0_10),             // move
    Opcode(0x0630, 0x09c0, "r,P", VersionAll),          // move
    Opcode(0x0670, 0x0980, "P,r", VersionAll),          // move
    Opcode(0x0bc0, 0x0000, "m R,y", VersionAll),        // move
    Opcode(0x0bc0, 0x0000, "m D,S", V0_10),             // move
    Opcode(0x0a30, 0x01c0, "s,P", VersionAll),          // move
    Opcode(0x0a30, 0x01c0, "S,P", V0_10),               // move
    Opcode(0x0a70, 0x0180, "P,y", VersionAll),          // move
    Opcode(0x0a70, 0x0180, "P,S", V0_10)                // move
  ]

  const OPCODES_6: seq<Opcode> := [
    Opcode(0x0b70, 0x0480, "r,T", V32p),                // move
    Opcode(0x0f70, 0x0080, "T,r", V32p),                // move
    Opcode(0x0bf0, 0x0000, "R,y", VersionAll),          // movem
    Opcode(0x0bf0, 0x0000, "D,S", V0_10),               // movem
    Opcode(0x0bb0, 0x0040, "s,R", VersionAll),          // movem
    Opcode(0x0bb0, 0x0040, "S,D", V0_10),               // movem
    Opcode(0x0240, 0x0d80, "i,R", VersionAll),          // moveq
    Opcode(0x0460, 0x0b80, "z r,R", VersionAll),        // movs
    Opcode(0x0860, 0x0380, "z s,R", VersionAll),        // movs
    Opcode(0x0860, 0x0380, "z S,D", V0_10),             // movs
    Opcode(0x0440, 0x0ba0, "z r,R", VersionAll),        // movu
    Opcode(0x0840, 0x03a0, "z s,R", VersionAll),        // movu
    Opcode(0x0840, 0x03a0, "z S,D", V0_10),             // movu
    Opcode(0x07f0, 0x0800, "r,R", V0_10),               // mstep
    Opcode(0x0d00, 0x02c0, "m r,R", V10p),              // muls
    Opcode(0x0900, 0x06c0, "m r,R", V10p),              // mulu
    Opcode(0x0580, 0x0a40, "m r,R", VersionAll),        // neg
    Opcode(0x050f, 0xfaf0, "", V0_10),                  // nop
    Opcode(0x05b0, 0xfa4f, "", V32p),                   // nop
    Opcode(0x8770, 0x7880, "r", VersionAll),            // not
    Opcode(0x0740, 0x0880, "m r,R", VersionAll),        // or
    Opcode(0x0b40, 0x0080, "m s,R", VersionAll),        // or
    Opcode(0x0b40, 0x0080, "m S,D", V0_10),             // or
    Opcode(0x0b40, 0x0480, "m S,R,r", V0_10)            // or
  ]

  const OPCODES_7: seq<Opcode> := [
    Opcode(0x0340, 0x0c80, "i,R", VersionAll),          // orq
    Opcode(0x0e6e, 0x0191, "!R", V0_10),                // pop
    Opcode(0x0e3e, 0x01c1, "!P", V0_10),                // pop
    Opcode(0x0fee, 0x0011, "BR", V0_10),                // push
    Opcode(0x0e7e, 0x0181, "BP", V0_10),                // push
    Opcode(0x3b30, 0xc0c0, "y", V10),                   // rbf
    Opcode(0x3b30, 0xc0c0, "S", V10),                   // rbf
    Opcode(0x2930, 0xd6cf, "", V32p),                   // rfe
    Opcode(0x4930, 0xb6cf, "", V32p),                   // rfg
    Opcode(0x5930, 0xa6cf, "", V32p),                   // rfn
    Opcode(0xb67f, 0x4980, "", V0_10),                  // ret
    Opcode(0xb9f0, 0x460f, "", V32p),                   // ret
    Opcode(0xe67f, 0x1980, "", V0_10),                  // retb
    Opcode(0xa9f0, 0x560f, "", V32p),                   // rete
    Opcode(0xa67f, 0x5980, "", V0_10),                  // reti
    Opcode(0xc9f0, 0x360f, "", V32p),                   // retn
    Opcode(0x3b70, 0xc080, "y", V10),                   // sbfs
    Opcode(0x3b70, 0xc080, "S", V10),                   // sbfs
    Opcode(0xe530, 0x1ac0, "r", VersionAll),            // sa
    Opcode(0xf530, 0x0ac0, "r", V32p),                  // ssb
    Opcode(0x0530, 0xfac0, "r", VersionAll),            // scc
    Opcode(0x1530, 0xeac0, "r", VersionAll),            // scs
    Opcode(0x3530, 0xcac0, "r", VersionAll),            // seq
    Opcode(0x05b0, 0x0a40, "f", VersionAll)             // setf
  ]

  const OPCODES_8: seq<Opcode> := [
    Opcode(0x3930, 0xc6cf, "", V32p),                   // sfe
    Opcode(0xf530, 0x0ac0, "r", V10),                   // swf
    Opcode(0xf530, 0x0ac0, "r", V0_3),                  // sext
    Opcode(0xa530, 0x5ac0, "r", VersionAll),            // sge
    Opcode(0xc530, 0x3ac0, "r", VersionAll),            // sgt
    Opcode(0x9530, 0x6ac0, "r", VersionAll),            // shi
    Opcode(0x0530, 0xfac0, "r", VersionAll),            // shs
    Opcode(0xd530, 0x2ac0, "r", VersionAll),            // sle
    Opcode(0x1530, 0xeac0, "r", VersionAll),            // slo
    Opcode(0x8530, 0x7ac0, "r", VersionAll),            // sls
    Opcode(0xb530, 0x4ac0, "r", VersionAll),            // slt
    Opcode(0x7530, 0x8ac0, "r", VersionAll),            // smi
    Opcode(0x2530, 0xdac0, "r", VersionAll),            // sne
    Opcode(0x6530, 0x9ac0, "r", VersionAll),            // spl
    Opcode(0x0680, 0x0940, "m r,R", VersionAll),        // sub
    Opcode(0x0a80, 0x0140, "m s,R", VersionAll),        // sub
    Opcode(0x0a80, 0x0140, "m S,D", V0_10),             // sub
    Opcode(0x0a80, 0x0540, "m S,R,r", V0_10),           // sub
    Opcode(0x0280, 0x0d40, "I,R", VersionAll),          // subq
    Opcode(0x04a0, 0x0b40, "z r,R", VersionAll),        // subs
    Opcode(0x08a0, 0x0340, "z s,R", VersionAll),        // subs
    Opcode(0x08a0, 0x0340, "z S,D", V0_10),             // subs
    Opcode(0x08a0, 0x0740, "z S,R,r", V0_10),           // subs
    Opcode(0x0480, 0x0b60, "z r,R", VersionAll)         // subu
  ]

  const OPCODES_9: seq<Opcode> := [
    Opcode(0x0880, 0x0360, "z s,R", VersionAll),        // subu
    Opcode(0x0880, 0x0360, "z S,D", V0_10),             // subu
    Opcode(0x0880, 0x0760, "z S,R,r", V0_10),           // subu
    Opcode(0x4530, 0xbac0, "r", VersionAll),            // svc
    Opcode(0x5530, 0xaac0, "r", VersionAll),            // svs
    Opcode(0x8770, 0x7880, "r", V8p),                   // swapn
    Opcode(0x4770, 0xb880, "r", V8p),                   // swapw
    Opcode(0xc770, 0x3880, "r", V8p),                   // swapnw
    Opcode(0x2770, 0xd880, "r", V8p),                   // swapb
    Opcode(0xa770, 0x5880, "r", V8p),                   // swapnb
    Opcode(0x6770, 0x9880, "r", V8p),                   // swapwb
    Opcode(0xe770, 0x1880, "r", V8p),                   // swapnwb
    Opcode(0x1770, 0xe880, "r", V8p),                   // swapr
    Opcode(0x9770, 0x6880, "r", V8p),                   // swapnr
    Opcode(0x5770, 0xa880, "r", V8p),                   // swapwr
    Opcode(0xd770, 0x2880, "r", V8p),                   // swapnwr
    Opcode(0x3770, 0xc880, "r", V8p),                   // swapbr
    Opcode(0xb770, 0x4880, "r", V8p),                   // swapnbr
    Opcode(0x7770, 0x8880, "r", V8p),                   // swapwbr
    Opcode(0xf770, 0x0880, "r", V8p),                   // swapnwbr
    Opcode(0x0640, 0x0980, "m D", V0_10),               // test
    Opcode(0x0b80, 0xf040, "m y", VersionAll),          // test
    Opcode(0x0b80, 0xf040, "m S", V0_10),               // test
    Opcode(0x07b0, 0x0840, "r,R", VersionAll)           // xor
  ]

  const UP_TO_HALT: seq<Opcode> := OPCODES_0 + OPCODES_1 + OPCODES_2 + OPCODES_3

  const AFTER_HALT: seq<Opcode> := OPCODES_4 + OPCODES_5 + OPCODES_6 + OPCODES_7 + OPCODES_8 + OPCODES_9

  const CRIS_OPCODES: seq<Opcode> := UP_TO_HALT + AFTER_HALT

  const TABLES := Tables(CRIS_OPCODES, SPEC_REGS)

  // ------------------------------------------------------------------ halt

  /** The word of halt, which only the v32 family has. */
  const HALT: Insn := 0xf930

  lemma BeforeHalt0()
    ensures forall k :: 0 <= k < 24 ==> !Matches(OPCODES_0[k], HALT)
  {
  }

  lemma BeforeHalt1()
    ensures forall k :: 0 <= k < 24 ==> !Matches(OPCODES_1[k], HALT)
  {
  }

  lemma BeforeHalt2()
    ensures forall k :: 0 <= k < 24 ==> !Matches(OPCODES_2[k], HALT)
  {
  }

  lemma BeforeHalt3()
    ensures forall k :: 0 <= k < 22 ==> !Matches(OPCODES_3[k], HALT)
    ensures OPCODES_3[22] == Opcode(HALT, 0x06cf, "", V32p)
  {
  }

  /** Where the entries of four parts of 24 stand in the whole. */
  lemma Parts(a: seq<Opcode>, b: seq<Opcode>, c: seq<Opcode>, d: seq<Opcode>, rest: seq<Opcode>, j: nat)
    requires |a| == |b| == |c| == |d| == 24 && j < 96
    ensures (a + b + c + d + rest)[j]
         == if j < 24 then a[j] else if j < 48 then b[j - 24] else if j < 72 then c[j - 48] else d[j - 72]
  {
  }

  /** A v32 lookup of halt followed by a lookup of the same word for v0 to v10, which is given
      the v32 entry although its own scan does not find it. */
  lemma StaleEntry()
    ensures var first, q := Query(FamilyV32, HALT, 0), Query(FamilyV0V10, HALT, 0);
            && LookUp(TABLES, Run(TABLES, [first]), q).1 == Some(94)
            && Fresh(EnvOf(TABLES, FamilyV0V10), HALT, 0) != Some(94)
  {
    BeforeHalt0();
    BeforeHalt1();
    BeforeHalt2();
    BeforeHalt3();
    Parts(OPCODES_0, OPCODES_1, OPCODES_2, OPCODES_3, AFTER_HALT, 94);
    forall j: nat | j < 94 ensures !Matches(CRIS_OPCODES[j], HALT) {
      Parts(OPCODES_0, OPCODES_1, OPCODES_2, OPCODES_3, AFTER_HALT, j);
    }
    FirstFull(EnvOf(TABLES, FamilyV32), 94, HALT);
    StaleWhere(TABLES, 94, HALT);
  }

  // ------------------------------------------------------------------ add.m Rs,Rd

  const ADD := Opcode(0x0600, 0x09c0, "m r,R", VersionAll)

  /** A move to a special register, which has the size field that add does not take. */
  const MOVE := Opcode(0x0630, 0x09c0, "r,P", VersionAll)

  /** The entry asks for no bit that a word of add has clear, and for none to be clear that it has set. */
  predicate Near(o: Opcode) { o.matching & 0x09c0 == 0 && o.lose & 0x0600 == 0 }

  lemma MatchesNear(o: Opcode, w: Insn)
    requires w & 0x0fc0 == 0x0600 && Matches(o, w)
    ensures Near(o)
  {
  }

  predicate OthersOff(ops: seq<Opcode>) {
    forall k :: 0 <= k < |ops| && Near(ops[k]) ==> ops[k] == ADD || ops[k] == MOVE
  }

  lemma Others0()
    ensures forall k :: 0 <= k < 24 && k != 1 ==> !Near(OPCODES_0[k])
  {
  }

  lemma Others1()
    ensures forall k :: 0 <= k < 24 ==> !Near(OPCODES_1[k])
  {
  }

  lemma Others2()
    ensures forall k :: 0 <= k < 24 ==> !Near(OPCODES_2[k])
  {
  }

  lemma Others3()
    ensures forall k :: 0 <= k < 24 ==> !Near(OPCODES_3[k])
  {
  }

  lemma Others4()
    ensures forall k :: 0 <= k < 24 ==> !Near(OPCODES_4[k])
  {
  }

  lemma Others5()
    ensures forall k :: 0 <= k < 24 && k != 16 ==> !Near(OPCODES_5[k])
  {
  }

  lemma Others6()
    ensures forall k :: 0 <= k < 24 ==> !Near(OPCODES_6[k])
  {
  }

  lemma Others7()
    ensures forall k :: 0 <= k < 24 ==> !Near(OPCODES_7[k])
  {
  }

  lemma Others8()
    ensures forall k :: 0 <= k < 24 ==> !Near(OPCODES_8[k])
  {
  }

  lemma Others9()
    ensures forall k :: 0 <= k < 24 ==> !Near(OPCODES_9[k])
  {
  }

  lemma OthersPlus(a: seq<Opcode>, b: seq<Opcode>)
    requires OthersOff(a) && OthersOff(b)
    ensures OthersOff(a + b)
  {
  }

  lemma OthersBefore()
    ensures OthersOff(UP_TO_HALT)
  {
    Others0();
    Others1();
    Others2();
    Others3();
    assert OPCODES_0[1] == ADD;
    OthersPlus(OPCODES_0, OPCODES_1);
    OthersPlus(OPCODES_0 + OPCODES_1, OPCODES_2);
    OthersPlus(OPCODES_0 + OPCODES_1 + OPCODES_2, OPCODES_3);
  }

  lemma OthersAfter()
    ensures OthersOff(AFTER_HALT)
  {
    Others4();
    Others5();
    Others6();
    Others7();
    Others8();
    Others9();
    assert OPCODES_5[16] == MOVE;
    OthersPlus(OPCODES_4, OPCODES_5);
    OthersPlus(OPCODES_4 + OPCODES_5, OPCODES_6);
    OthersPlus(OPCODES_4 + OPCODES_5 + OPCODES_6, OPCODES_7);
    OthersPlus(OPCODES_4 + OPCODES_5 + OPCODES_6 + OPCODES_7, OPCODES_8);
    OthersPlus(OPCODES_4 + OPCODES_5 + OPCODES_6 + OPCODES_7 + OPCODES_8, OPCODES_9);
  }

  lemma SixthPart(a: seq<Opcode>, b: seq<Opcode>, c: seq<Opcode>, d: seq<Opcode>, e: seq<Opcode>, f: seq<Opcode>,
                  g: seq<Opcode>, j: nat)
    requires |a| == 96 && |b| == |c| == 24 && j < 24
    ensures (a + (b + c + d + e + f + g))[120 + j] == c[j]
  {
  }

  /** What a table must have for add to be found. */
  predicate AddTable(ops: seq<Opcode>) {
    |ops| > 136 && OthersOff(ops) && ops[0] != ADD && ops[1] == ADD && ops[136] == MOVE
  }

  lemma TableHasAdd()
    ensures AddTable(CRIS_OPCODES)
  {
    OthersBefore();
    OthersAfter();
    OthersPlus(UP_TO_HALT, AFTER_HALT);
    AddPlace();
    MovePlace();
  }

  lemma AddPlace()
    ensures |CRIS_OPCODES| > 1 && CRIS_OPCODES[0] != ADD && CRIS_OPCODES[1] == ADD
  {
    Parts(OPCODES_0, OPCODES_1, OPCODES_2, OPCODES_3, AFTER_HALT, 0);
    Parts(OPCODES_0, OPCODES_1, OPCODES_2, OPCODES_3, AFTER_HALT, 1);
  }

  lemma MovePlace()
    ensures |CRIS_OPCODES| > 136 && CRIS_OPCODES[136] == MOVE
  {
    assert OPCODES_5[16] == MOVE;
    SixthPart(UP_TO_HALT, OPCODES_4, OPCODES_5, OPCODES_6, OPCODES_7, OPCODES_8, OPCODES_9, 16);
  }

  /** What the two ask for. */
  lemma AddFits(e: Env, w: Insn)
    ensures Fits(e, "m r,R", w, Absent) <==> SizeBits(w) != 0x30
    ensures Fits(e, "r,P", w, Absent) <==> Known(e.regs, High(w), e.family)
  {
    assert "m r,R"[0] == 'm' && "r,P"[2] == 'P';
  }

  lemma AddBits(w: Insn)
    requires w & 0x0fc0 == 0x0600
    ensures Matches(ADD, w) && (Matches(MOVE, w) <==> SizeBits(w) == 0x30)
  {
  }

  lemma AddAccepted(e: Env, w: Insn, o: Opcode)
    requires w & 0x0fc0 == 0x0600 && (Near(o) ==> o == ADD || o == MOVE)
    ensures Accepted(e, o, w, Absent)
            <==> if SizeBits(w) != 0x30 then o == ADD else o == MOVE && Known(e.regs, High(w), e.family)
  {
    AddFits(e, w);
    AddBits(w);
    if Matches(o, w) { MatchesNear(o, w); }
  }

  /** The scan if only entries equal to o are accepted, the first of them at k, and if all of those are. */
  lemma ScanOnly(e: Env, w: Insn, o: Opcode, k: nat, known: bool)
    requires SizesOk(e.regs) && k < |e.ops| && e.ops[k] == o
    requires forall j :: 0 <= j < |e.ops| ==> (Accepted(e, e.ops[j], w, Absent) <==> e.ops[j] == o && known)
    ensures var r := Scan(e, w, Absent); (r.Some? <==> known) && (r.Some? ==> e.ops[r.value] == o)
    ensures known && (forall j :: 0 <= j < k ==> e.ops[j] != o) ==> Scan(e, w, Absent) == Some(k)
  {
    ScanChooses(e, w, Absent, Scan(e, w, Absent));
    ScanChooses(e, w, Absent, Some(k));
  }

  lemma AddScanned(e: Env, w: Insn)
    requires w & 0x0fc0 == 0x0600 && AddTable(e.ops) && SizesOk(e.regs)
    ensures var r := Scan(e, w, Absent);
            if SizeBits(w) != 0x30 then r == Some(1)
            else (r.Some? <==> Known(e.regs, High(w), e.family)) && (r.Some? ==> e.ops[r.value] == MOVE)
  {
    var k, o := if SizeBits(w) != 0x30 then 1 else 136, if SizeBits(w) != 0x30 then ADD else MOVE;
    ghost var known := SizeBits(w) != 0x30 || Known(e.regs, High(w), e.family);
    forall j | 0 <= j < |e.ops| ensures Accepted(e, e.ops[j], w, Absent) <==> e.ops[j] == o && known {
      AddAccepted(e, w, e.ops[j]);
    }
    ScanOnly(e, w, o, k, known);
  }

  lemma AddFields(high: Insn, size: Insn, low: Insn)
    requires high < 16 && size < 4 && low < 16
    ensures var w := (high << 12) | 0x0600 | (size << 4) | low;
            w & 0x0fc0 == 0x0600 && High(w) == high && (SizeBits(w) == 0x30 <==> size == 3)
  {
  }

  /** The words of add with a size of one, two or four bytes are decoded as add, whatever the registers.
      With the fourth size they are decoded as a move to the special register if the family knows it, and
      not at all otherwise. */
  lemma AddDecoded(family: Family, high: Insn, size: Insn, low: Insn)
    requires high < 16 && size < 4 && low < 16
    ensures |CRIS_OPCODES| > 1 && CRIS_OPCODES[1] == ADD
    ensures var w := (high << 12) | 0x0600 | (size << 4) | low;
            var r := Fresh(EnvOf(TABLES, family), w, 0);
            if size < 3 then r == Some(1)
            else (r.Some? <==> Known(SPEC_REGS, high, family)) && (r.Some? ==> CRIS_OPCODES[r.value] == MOVE)
  {
    var w := (high << 12) | 0x0600 | (size << 4) | low;
    AddFields(high, size, low);
    TableHasAdd();
    SpecRegSizes();
    AddScanned(EnvOf(TABLES, family), w);
  }
}
