/**
 Bytes of the AES field and columns of four of them. Multiplication by a constant
 is built from one doubling map, of which only linearity is used: every result here
 and in the cipher holds for any linear doubling and any substitution with an inverse.
 */
module AesField {

  type Byte = bv8

  function Xor(a: Byte, b: Byte): Byte { a ^ b }

  function Sum3(a: Byte, b: Byte, c: Byte): Byte { Xor(Xor(a, b), c) }

  function Sum4(a: Byte, b: Byte, c: Byte, d: Byte): Byte { Xor(Sum3(a, b, c), d) }

  /** The doubling map and the substitution box with its inverse. */
  datatype Tables = Tables(xt: Byte -> Byte, S: Byte -> Byte, Si: Byte -> Byte)

  ghost predicate Linear(f: Byte -> Byte) {
    forall x, y :: f(Xor(x, y)) == Xor(f(x), f(y))
  }

  ghost predicate Valid(t: Tables) {
    Linear(t.xt) && forall b :: t.Si(t.S(b)) == b
  }

  /** What doubling adds when the top bit falls out: the low part of x^8 + x^4 + x^3 + x + 1. */
  function Carry(b: Byte): Byte { if b & 0x80 != 0 then 0x1b else 0 }

  function Xtime(b: Byte): Byte { Xor(b << 1, Carry(b)) }

  lemma ShiftAdds(x: Byte, y: Byte)
    ensures (x ^ y) << 1 == (x << 1) ^ (y << 1)
  {
  }

  lemma CarryAdds(x: Byte, y: Byte)
    ensures Carry(x ^ y) == Carry(x) ^ Carry(y)
  {
  }

  lemma XtimeAdds(x: Byte, y: Byte)
    ensures Xtime(Xor(x, y)) == Xor(Xtime(x), Xtime(y))
  {
    ShiftAdds(x, y);
    CarryAdds(x, y);
    Swap(x << 1, y << 1, Carry(x), Carry(y));
  }

  lemma XtimeLinear()
    ensures Linear(Xtime)
  {
    forall x, y ensures Xtime(Xor(x, y)) == Xor(Xtime(x), Xtime(y)) {
      XtimeAdds(x, y);
    }
  }

  // multiplication by the constants of section 5 of FIPS 197
  function M2(f: Byte -> Byte, b: Byte): Byte { f(b) }
  function M3(f: Byte -> Byte, b: Byte): Byte { Xor(f(b), b) }
  function M9(f: Byte -> Byte, b: Byte): Byte { Xor(f(f(f(b))), b) }
  function Mb(f: Byte -> Byte, b: Byte): Byte { Sum3(f(f(f(b))), f(b), b) }
  function Md(f: Byte -> Byte, b: Byte): Byte { Sum3(f(f(f(b))), f(f(b)), b) }
  function Me(f: Byte -> Byte, b: Byte): Byte { Sum3(f(f(f(b))), f(f(b)), f(b)) }

  // ------------------------------------------------------------------ sums

  lemma Assoc(a: Byte, b: Byte, c: Byte)
    ensures Xor(Xor(a, b), c) == Xor(a, Xor(b, c))
  {
  }

  lemma Comm(a: Byte, b: Byte)
    ensures Xor(a, b) == Xor(b, a)
  {
  }

  lemma XorTwice(a: Byte, k: Byte)
    ensures Xor(Xor(a, k), k) == a
  {
  }

  lemma Swap(a: Byte, b: Byte, c: Byte, d: Byte)
    ensures Xor(Xor(a, b), Xor(c, d)) == Xor(Xor(a, c), Xor(b, d))
  {
    Assoc(a, b, Xor(c, d));
    Assoc(b, c, d);
    Comm(b, c);
    Assoc(c, b, d);
    Assoc(a, c, Xor(b, d));
  }

  lemma Swap3(a: Byte, b: Byte, c: Byte, d: Byte, e: Byte, f: Byte)
    ensures Xor(Sum3(a, b, c), Sum3(d, e, f)) == Sum3(Xor(a, d), Xor(b, e), Xor(c, f))
  {
    Swap(Xor(a, b), c, Xor(d, e), f);
    Swap(a, b, d, e);
  }

  lemma Swap4(a: Byte, b: Byte, c: Byte, d: Byte, e: Byte, f: Byte, g: Byte, h: Byte)
    ensures Xor(Sum4(a, b, c, d), Sum4(e, f, g, h)) == Sum4(Xor(a, e), Xor(b, f), Xor(c, g), Xor(d, h))
  {
    Swap(Sum3(a, b, c), d, Sum3(e, f, g), h);
    Swap3(a, b, c, e, f, g);
  }

  lemma Turn(a: Byte, b: Byte, c: Byte, d: Byte)
    ensures Sum4(a, b, c, d) == Sum4(b, c, d, a)
  {
    Assoc(a, b, c);
    Assoc(a, Xor(b, c), d);
    Comm(a, Sum3(b, c, d));
  }

  /** Summing a square of bytes by rows or by columns is the same. */
  lemma Transpose(a0: Byte, a1: Byte, a2: Byte, a3: Byte, b0: Byte, b1: Byte, b2: Byte, b3: Byte,
                  c0: Byte, c1: Byte, c2: Byte, c3: Byte, d0: Byte, d1: Byte, d2: Byte, d3: Byte)
    ensures Sum4(Sum4(a0, a1, a2, a3), Sum4(b0, b1, b2, b3), Sum4(c0, c1, c2, c3), Sum4(d0, d1, d2, d3))
            == Sum4(Sum4(a0, b0, c0, d0), Sum4(a1, b1, c1, d1), Sum4(a2, b2, c2, d2), Sum4(a3, b3, c3, d3))
  {
    Swap4(a0, a1, a2, a3, b0, b1, b2, b3);
    Swap4(Xor(a0, b0), Xor(a1, b1), Xor(a2, b2), Xor(a3, b3), c0, c1, c2, c3);
    Swap4(Sum3(a0, b0, c0), Sum3(a1, b1, c1), Sum3(a2, b2, c2), Sum3(a3, b3, c3), d0, d1, d2, d3);
  }

  // ------------------------------------------------------------------ linearity

  lemma M9Adds(f: Byte -> Byte, x: Byte, y: Byte)
    requires Linear(f)
    ensures M9(f, Xor(x, y)) == Xor(M9(f, x), M9(f, y))
  {
    Swap(f(f(f(x))), f(f(f(y))), x, y);
  }

  lemma MbAdds(f: Byte -> Byte, x: Byte, y: Byte)
    requires Linear(f)
    ensures Mb(f, Xor(x, y)) == Xor(Mb(f, x), Mb(f, y))
  {
    Swap3(f(f(f(x))), f(x), x, f(f(f(y))), f(y), y);
  }

  lemma MdAdds(f: Byte -> Byte, x: Byte, y: Byte)
    requires Linear(f)
    ensures Md(f, Xor(x, y)) == Xor(Md(f, x), Md(f, y))
  {
    Swap3(f(f(f(x))), f(f(x)), x, f(f(f(y))), f(f(y)), y);
  }

  lemma MeAdds(f: Byte -> Byte, x: Byte, y: Byte)
    requires Linear(f)
    ensures Me(f, Xor(x, y)) == Xor(Me(f, x), Me(f, y))
  {
    Swap3(f(f(f(x))), f(f(x)), f(x), f(f(f(y))), f(f(y)), f(y));
  }

  // each product map over a sum of four
  lemma M9Adds4(f: Byte -> Byte, a: Byte, b: Byte, c: Byte, d: Byte)
    requires Linear(f)
    ensures M9(f, Sum4(a, b, c, d)) == Sum4(M9(f, a), M9(f, b), M9(f, c), M9(f, d))
  {
    M9Adds(f, Sum3(a, b, c), d);
    M9Adds(f, Xor(a, b), c);
    M9Adds(f, a, b);
  }

  lemma MbAdds4(f: Byte -> Byte, a: Byte, b: Byte, c: Byte, d: Byte)
    requires Linear(f)
    ensures Mb(f, Sum4(a, b, c, d)) == Sum4(Mb(f, a), Mb(f, b), Mb(f, c), Mb(f, d))
  {
    MbAdds(f, Sum3(a, b, c), d);
    MbAdds(f, Xor(a, b), c);
    MbAdds(f, a, b);
  }

  lemma MdAdds4(f: Byte -> Byte, a: Byte, b: Byte, c: Byte, d: Byte)
    requires Linear(f)
    ensures Md(f, Sum4(a, b, c, d)) == Sum4(Md(f, a), Md(f, b), Md(f, c), Md(f, d))
  {
    MdAdds(f, Sum3(a, b, c), d);
    MdAdds(f, Xor(a, b), c);
    MdAdds(f, a, b);
  }

  lemma MeAdds4(f: Byte -> Byte, a: Byte, b: Byte, c: Byte, d: Byte)
    requires Linear(f)
    ensures Me(f, Sum4(a, b, c, d)) == Sum4(Me(f, a), Me(f, b), Me(f, c), Me(f, d))
  {
    MeAdds(f, Sum3(a, b, c), d);
    MeAdds(f, Xor(a, b), c);
    MeAdds(f, a, b);
  }

  // ------------------------------------------------------------------ the coefficients of the product

  lemma Halves(a: Byte, b: Byte, c: Byte, d: Byte)
    ensures Sum4(a, b, c, d) == Xor(Xor(a, b), Xor(c, d))
  {
  }

  lemma Same(a: Byte)
    ensures Xor(a, a) == 0
  {
  }

  // (e, b, d, 9) times the columns of the mixing matrix, as polynomials in the doubling
  lemma Coefficient0(a0: Byte, a1: Byte, a2: Byte, a3: Byte, a4: Byte)
    ensures Sum4(Sum3(a4, a3, a2), Sum3(a3, a1, a0), Sum3(a3, a2, a0), Xor(Xor(a4, a3), Xor(a1, a0))) == a0
  {
    Halves(Sum3(a4, a3, a2), Sum3(a3, a1, a0), Sum3(a3, a2, a0), Xor(Xor(a4, a3), Xor(a1, a0)));
    Front0(a0, a1, a2, a3, a4);
    Back0(a0, a1, a2, a3, a4);
    Last0(a0, Xor(a4, a2), a1);
  }

  lemma Front0(a0: Byte, a1: Byte, a2: Byte, a3: Byte, a4: Byte)
    ensures Xor(Sum3(a4, a3, a2), Sum3(a3, a1, a0)) == Xor(Xor(Xor(a4, a2), a1), a0)
  {
  }

  lemma Back0(a0: Byte, a1: Byte, a2: Byte, a3: Byte, a4: Byte)
    ensures Xor(Sum3(a3, a2, a0), Xor(Xor(a4, a3), Xor(a1, a0))) == Xor(Xor(a4, a2), a1)
  {
  }

  lemma Last0(a: Byte, b: Byte, c: Byte)
    ensures Xor(Xor(Xor(b, c), a), Xor(b, c)) == a
  {
  }

  lemma Coefficient1(b0: Byte, b1: Byte, b2: Byte, b3: Byte, b4: Byte)
    ensures Sum4(Sum3(Xor(b4, b3), Xor(b3, b2), Xor(b2, b1)), Sum3(b4, b2, b1), Sum3(b3, b2, b0), Xor(b3, b0)) == 0
  {
    Halves(Sum3(Xor(b4, b3), Xor(b3, b2), Xor(b2, b1)), Sum3(b4, b2, b1), Sum3(b3, b2, b0), Xor(b3, b0));
    Front1(b1, b2, b3, b4);
    Back1(b0, b2, b3);
    Same(b2);
  }

  lemma Front1(b1: Byte, b2: Byte, b3: Byte, b4: Byte)
    ensures Xor(Sum3(Xor(b4, b3), Xor(b3, b2), Xor(b2, b1)), Sum3(b4, b2, b1)) == b2
  {
  }

  lemma Back1(b0: Byte, b2: Byte, b3: Byte)
    ensures Xor(Sum3(b3, b2, b0), Xor(b3, b0)) == b2
  {
  }

  lemma Coefficient2(c0: Byte, c1: Byte, c2: Byte, c3: Byte, c4: Byte)
    ensures Sum4(Sum3(c3, c2, c1), Sum3(Xor(c4, c3), Xor(c2, c1), Xor(c1, c0)), Sum3(c4, c3, c1), Xor(c3, c0)) == 0
  {
    Halves(Sum3(c3, c2, c1), Sum3(Xor(c4, c3), Xor(c2, c1), Xor(c1, c0)), Sum3(c4, c3, c1), Xor(c3, c0));
    Front2(c0, c1, c2, c3, c4);
    Back2(c0, c1, c3, c4);
    Same(Sum3(c4, c1, c0));
  }

  lemma Front2(c0: Byte, c1: Byte, c2: Byte, c3: Byte, c4: Byte)
    ensures Xor(Sum3(c3, c2, c1), Sum3(Xor(c4, c3), Xor(c2, c1), Xor(c1, c0))) == Sum3(c4, c1, c0)
  {
  }

  lemma Back2(c0: Byte, c1: Byte, c3: Byte, c4: Byte)
    ensures Xor(Sum3(c4, c3, c1), Xor(c3, c0)) == Sum3(c4, c1, c0)
  {
  }

  lemma Coefficient3(d0: Byte, d1: Byte, d2: Byte, d3: Byte, d4: Byte)
    ensures Sum4(Sum3(d3, d2, d1), Sum3(d3, d1, d0), Sum3(Xor(d4, d3), Xor(d3, d2), Xor(d1, d0)), Xor(d4, d1)) == 0
  {
    Halves(Sum3(d3, d2, d1), Sum3(d3, d1, d0), Sum3(Xor(d4, d3), Xor(d3, d2), Xor(d1, d0)), Xor(d4, d1));
    Front3(d0, d1, d2, d3);
    Back3(d0, d1, d2, d3, d4);
    Same(Xor(d2, d0));
  }

  lemma Front3(d0: Byte, d1: Byte, d2: Byte, d3: Byte)
    ensures Xor(Sum3(d3, d2, d1), Sum3(d3, d1, d0)) == Xor(d2, d0)
  {
  }

  lemma Back3(d0: Byte, d1: Byte, d2: Byte, d3: Byte, d4: Byte)
    ensures Xor(Sum3(Xor(d4, d3), Xor(d3, d2), Xor(d1, d0)), Xor(d4, d1)) == Xor(d2, d0)
  {
  }

  lemma Column0(f: Byte -> Byte, a: Byte)
    requires Linear(f)
    ensures Sum4(Me(f, M2(f, a)), Mb(f, a), Md(f, a), M9(f, M3(f, a))) == a
  {
    Coefficient0(a, f(a), f(f(a)), f(f(f(a))), f(f(f(f(a)))));
  }

  lemma Column1(f: Byte -> Byte, b: Byte)
    requires Linear(f)
    ensures Sum4(Me(f, M3(f, b)), Mb(f, M2(f, b)), Md(f, b), M9(f, b)) == 0
  {
    Coefficient1(b, f(b), f(f(b)), f(f(f(b))), f(f(f(f(b)))));
  }

  lemma Column2(f: Byte -> Byte, c: Byte)
    requires Linear(f)
    ensures Sum4(Me(f, c), Mb(f, M3(f, c)), Md(f, M2(f, c)), M9(f, c)) == 0
  {
    Coefficient2(c, f(c), f(f(c)), f(f(f(c))), f(f(f(f(c)))));
  }

  lemma Column3(f: Byte -> Byte, d: Byte)
    requires Linear(f)
    ensures Sum4(Me(f, d), Mb(f, d), Md(f, M3(f, d)), M9(f, M2(f, d))) == 0
  {
    Coefficient3(d, f(d), f(f(d)), f(f(f(d))), f(f(f(f(d)))));
  }

  lemma AddZeros(a: Byte)
    ensures Sum4(a, 0, 0, 0) == a
  {
  }

  /** One byte of the inverse mixing of a mixed column. */
  lemma Unmix(f: Byte -> Byte, a: Byte, b: Byte, c: Byte, d: Byte)
    requires Linear(f)
    ensures Sum4(Me(f, Sum4(M2(f, a), M3(f, b), c, d)), Mb(f, Sum4(a, M2(f, b), M3(f, c), d)),
                 Md(f, Sum4(a, b, M2(f, c), M3(f, d))), M9(f, Sum4(M3(f, a), b, c, M2(f, d)))) == a
  {
    MeAdds4(f, M2(f, a), M3(f, b), c, d);
    MbAdds4(f, a, M2(f, b), M3(f, c), d);
    MdAdds4(f, a, b, M2(f, c), M3(f, d));
    M9Adds4(f, M3(f, a), b, c, M2(f, d));
    Transpose(Me(f, M2(f, a)), Me(f, M3(f, b)), Me(f, c), Me(f, d),
              Mb(f, a), Mb(f, M2(f, b)), Mb(f, M3(f, c)), Mb(f, d),
              Md(f, a), Md(f, b), Md(f, M2(f, c)), Md(f, M3(f, d)),
              M9(f, M3(f, a)), M9(f, b), M9(f, c), M9(f, M2(f, d)));
    Column0(f, a);
    Column1(f, b);
    Column2(f, c);
    Column3(f, d);
    AddZeros(a);
  }
}
