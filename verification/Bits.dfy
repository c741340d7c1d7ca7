/** Bit fields of machine words.

  A word is a natural number. `Field` reads a C bit-field (or a byte lane, or a
  single flag) and `SetField` is the read-modify-write that replaces one field
  and keeps every other bit. */
module Bits {

  /** How many values 64 bits have. */
  const WORD_VALUES: nat := 0x1_0000_0000_0000_0000

  /** 64-bit machine word. */
  type Word = w: nat | w < WORD_VALUES

  function Pow2(n: nat): (p: nat)
    ensures p > 0
  {
    if n == 0 then 1 else 2 * Pow2(n - 1)
  }

  lemma Pow2Values()
    ensures Pow2(1) == 2 && Pow2(2) == 4 && Pow2(3) == 8 && Pow2(8) == 256
    ensures Pow2(36) == 0x10_0000_0000 && Pow2(64) == 0x1_0000_0000_0000_0000
  {
    assert Pow2(16) == 65536;
    assert Pow2(4) == 16;
    Pow2Add(16, 16);
    Pow2Add(32, 4);
    Pow2Add(32, 32);
  }

  /** `(w >> lo) & ((1 << width) - 1)` */
  function Field(w: nat, lo: nat, width: nat): (v: nat)
    ensures v < Pow2(width)
  {
    w / Pow2(lo) % Pow2(width)
  }

  /** `(w & ~(((1 << width) - 1) << lo)) | (v << lo)` */
  function SetField(w: nat, lo: nat, width: nat, v: nat): nat
    requires v < Pow2(width)
  {
    w / Pow2(lo + width) * Pow2(lo + width) + v * Pow2(lo) + w % Pow2(lo)
  }

  // ---- arithmetic behind the laws

  lemma {:induction false} Pow2Add(a: nat, b: nat)
    ensures Pow2(a + b) == Pow2(a) * Pow2(b)
  {
    if a == 0 {
    } else {
      Pow2Add(a - 1, b);
      assert Pow2(a + b) == 2 * Pow2(a - 1 + b);
    }
  }

  lemma {:induction false} Pow2Monotone(a: nat, b: nat)
    requires a <= b
    ensures Pow2(a) <= Pow2(b)
    decreases b
  {
    if a < b { Pow2Monotone(a, b - 1); }
  }

  lemma MulMono(a: int, b: int, d: int)
    requires d >= 0
    ensures a <= b ==> a * d <= b * d
  {
  }

  lemma DivModUnique(w: int, d: int, q: int, r: int)
    requires 0 <= r < d && w == q * d + r
    ensures w / d == q && w % d == r
  {
    var q', r' := w / d, w % d;
    assert w == q' * d + r';
    MulMono(q' + 1, q, d);
    MulMono(q + 1, q', d);
    assert (q' + 1) * d == q' * d + d && (q + 1) * d == q * d + d;
    assert q <= q' && q' <= q;
  }

  lemma DivDiv(w: nat, a: nat, b: nat)
    requires a > 0 && b > 0
    ensures a * b > 0 && w / (a * b) == w / a / b
  {
    var q, r := w / a, w % a;
    var q', r' := q / b, q % b;
    assert r' <= b - 1;
    assert a * r' <= a * (b - 1);
    assert w == q * a + r == (q' * b + r') * a + r;
    assert (q' * b + r') * a == q' * (a * b) + a * r';
    assert 0 <= a * r' + r < a * b;
    DivModUnique(w, a * b, q', a * r' + r);
  }

  /** A field lying wholly in the low part ignores the high part. */
  lemma LowPart(q: nat, l: nat, a: nat, b: nat, k: nat)
    requires a > 0 && b > 0
    ensures (q * (a * b * k) + l) / a % b == l / a % b
  {
    var d, r := l / a, l % a;
    var e, s := d / b, d % b;
    var w := q * (a * b * k) + l;
    assert q * (a * b * k) == (q * k * b) * a;
    assert w == (q * k * b + d) * a + r;
    DivModUnique(w, a, q * k * b + d, r);
    assert q * k * b + d == (q * k + e) * b + s;
    DivModUnique(q * k * b + d, b, q * k + e, s);
  }

  // ---- the laws

  lemma SetFieldParts(w: nat, lo: nat, width: nat, v: nat)
    requires v < Pow2(width)
    ensures SetField(w, lo, width, v) % Pow2(lo) == w % Pow2(lo)
    ensures SetField(w, lo, width, v) / Pow2(lo) % Pow2(width) == v
    ensures SetField(w, lo, width, v) / Pow2(lo + width) == w / Pow2(lo + width)
  {
    var p, g := Pow2(lo), Pow2(width);
    Pow2Add(lo, width);
    var h, l := w / (p * g), w % p;
    var x := SetField(w, lo, width, v);
    assert h * (p * g) == (h * g) * p;
    assert x == (h * g + v) * p + l;
    DivModUnique(x, p, h * g + v, l);
    DivModUnique(h * g + v, g, h, v);
    DivDiv(x, p, g);
  }

  /** Reading back the field just written. */
  lemma GetSetSame(w: nat, lo: nat, width: nat, v: nat)
    requires v < Pow2(width)
    ensures Field(SetField(w, lo, width, v), lo, width) == v
  {
    SetFieldParts(w, lo, width, v);
  }

  ghost predicate Disjoint(lo: nat, width: nat, lo': nat, width': nat) {
    lo + width <= lo' || lo' + width' <= lo
  }

  /** Writing a field leaves every disjoint field alone. */
  lemma GetSetOther(w: nat, lo: nat, width: nat, v: nat, lo': nat, width': nat)
    requires v < Pow2(width)
    requires Disjoint(lo, width, lo', width')
    ensures Field(SetField(w, lo, width, v), lo', width') == Field(w, lo', width')
  {
    var x := SetField(w, lo, width, v);
    SetFieldParts(w, lo, width, v);
    if lo + width <= lo' {
      var top := lo + width;
      Pow2Add(top, lo' - top);
      DivDiv(x, Pow2(top), Pow2(lo' - top));
      DivDiv(w, Pow2(top), Pow2(lo' - top));
    } else {
      FieldOfLow(w, lo, lo', width');
      FieldOfLow(x, lo, lo', width');
    }
  }

  lemma FieldOfLow(w: nat, lo: nat, lo': nat, width': nat)
    requires lo' + width' <= lo
    ensures Field(w, lo', width') == Field(w % Pow2(lo), lo', width')
  {
    var k := lo - lo' - width';
    var a, b, c := Pow2(lo'), Pow2(width'), Pow2(k);
    assert Pow2(lo) == a * b * c by {
      Pow2Add(lo', width');
      Pow2Add(lo' + width', k);
    }
    SplitLow(w, a, b, c);
  }

  lemma SplitLow(w: nat, a: nat, b: nat, c: nat)
    requires a > 0 && b > 0 && c > 0
    ensures a * b * c > 0 && w / a % b == w % (a * b * c) / a % b
  {
    var m := a * b * c;
    assert m > 0 by { MulMono(1, a * b, c); MulMono(1, a, b); }
    assert w == w / m * m + w % m;
    LowPart(w / m, w % m, a, b, c);
  }

  /** `GetSetSame` and `GetSetOther` for every field at once. */
  lemma FieldsAfter(w: nat, lo: nat, width: nat, v: nat)
    requires v < Pow2(width)
    ensures Field(SetField(w, lo, width, v), lo, width) == v
    ensures forall lo': nat, width': nat {:trigger Field(SetField(w, lo, width, v), lo', width')} ::
              Disjoint(lo, width, lo', width') ==>
                Field(SetField(w, lo, width, v), lo', width') == Field(w, lo', width')
  {
    GetSetSame(w, lo, width, v);
    forall lo': nat, width': nat | Disjoint(lo, width, lo', width')
      ensures Field(SetField(w, lo, width, v), lo', width') == Field(w, lo', width')
    {
      GetSetOther(w, lo, width, v, lo', width');
    }
  }

  /** A field of an n-bit word written in place leaves an n-bit word. */
  lemma SetFieldBound(w: nat, lo: nat, width: nat, v: nat, n: nat)
    requires v < Pow2(width) && w < Pow2(n) && lo + width <= n
    ensures SetField(w, lo, width, v) < Pow2(n)
  {
    var x := SetField(w, lo, width, v);
    var top, rest := lo + width, n - lo - width;
    SetFieldParts(w, lo, width, v);
    Pow2Add(top, rest);
    DivDiv(x, Pow2(top), Pow2(rest));
    DivDiv(w, Pow2(top), Pow2(rest));
    assert w / Pow2(n) == 0 by { DivModUnique(w, Pow2(n), 0, w); }
    assert x / Pow2(n) == 0;
  }

  /** A bit of a field is a bit of the word. */
  lemma BitOfField(w: nat, lo: nat, width: nat, b: nat)
    requires b < width
    ensures Field(Field(w, lo, width), b, 1) == Field(w, lo + b, 1)
  {
    var q, p := w / Pow2(lo), Pow2(b);
    assert Field(q, b, 1) == Field(q % Pow2(width), b, 1) by {
      FieldOfLow(q, width, b, 1);
    }
    assert w / Pow2(lo + b) == q / p by {
      Pow2Add(lo, b);
      DivDiv(w, Pow2(lo), p);
    }
  }

  /** Two n-bit words agreeing on every bit are equal. */
  lemma {:induction false} WordsEqual(a: nat, b: nat, n: nat)
    requires a < Pow2(n) && b < Pow2(n)
    requires forall i: nat :: i < n ==> Field(a, i, 1) == Field(b, i, 1)
    ensures a == b
  {
    if n == 0 {
    } else {
      forall i: nat | i < n - 1
        ensures Field(a / 2, i, 1) == Field(b / 2, i, 1)
      {
        DivDiv(a, 2, Pow2(i));
        DivDiv(b, 2, Pow2(i));
        assert Field(a, i + 1, 1) == Field(b, i + 1, 1);
      }
      WordsEqual(a / 2, b / 2, n - 1);
      assert Field(a, 0, 1) == Field(b, 0, 1);
    }
  }

  lemma ThreeParts(w: nat, a: nat, b: nat)
    requires a > 0 && b > 0
    ensures a * b > 0 && w == w / (a * b) * (a * b) + w / a % b * a + w % a
  {
    DivDiv(w, a, b);
    var q := w / a;
    var h, f := q / b, q % b;
    assert w == q * a + w % a && q == h * b + f;
    assert (h * b + f) * a == h * (a * b) + f * a;
  }

  /** What setting a field adds to a word, and takes away from it. */
  lemma SetFieldAdds(w: nat, lo: nat, width: nat, v: nat)
    requires v < Pow2(width)
    ensures SetField(w, lo, width, v) + Field(w, lo, width) * Pow2(lo) == w + v * Pow2(lo)
  {
    Pow2Add(lo, width);
    ThreeParts(w, Pow2(lo), Pow2(width));
    hide Pow2;
  }

  /** Every field of zero is zero. */
  lemma ZeroFields(lo: nat, width: nat)
    ensures Field(0, lo, width) == 0
  {
    DivModUnique(0, Pow2(lo), 0, 0);
    DivModUnique(0, Pow2(width), 0, 0);
  }
}
