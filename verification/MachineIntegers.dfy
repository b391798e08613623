/**
 Machine integers. Every operation is followed by a wrapping, which is a parameter of the other modules:
 all that matters of it is that it respects + and -. `Wrap64` is the one of 64-bit integers.
 */
module MachineIntegers {

  type Wrapping = int -> int

  /** Names the two operands at which the laws below are used. */
  ghost predicate At(x: int, y: int) {
    true
  }

  ghost predicate Lawful(wrap: Wrapping) {
    forall x, y {:trigger At(x, y)} ::
      At(x, y) ==> wrap(wrap(x) + y) == wrap(x + y) && wrap(x - wrap(y)) == wrap(x - y)
  }

  lemma Absorb(wrap: Wrapping, x: int, y: int)
    requires Lawful(wrap)
    ensures wrap(wrap(x) + y) == wrap(x + y) && wrap(x - wrap(y)) == wrap(x - y)
    ensures wrap(y + wrap(x)) == wrap(y + x)
  {
    assert At(x, y);
    assert y + wrap(x) == wrap(x) + y && y + x == x + y;
  }

  /** Two's complement, 64 bits. */
  function Wrap64(): Wrapping {
    x => TwosComplement(x)
  }

  function TwosComplement(x: int): int {
    (x + 0x8000_0000_0000_0000) % 0x1_0000_0000_0000_0000 - 0x8000_0000_0000_0000
  }

  lemma Residue(x: int, q: int)
    ensures TwosComplement(x + q * 0x1_0000_0000_0000_0000) == TwosComplement(x)
  {
  }

  lemma Quotient(x: int) returns (q: int)
    ensures TwosComplement(x) == x - q * 0x1_0000_0000_0000_0000
  {
    q := (x + 0x8000_0000_0000_0000) / 0x1_0000_0000_0000_0000;
  }

  lemma TwosComplementAbsorbs(x: int, y: int)
    ensures TwosComplement(TwosComplement(x) + y) == TwosComplement(x + y)
    ensures TwosComplement(x - TwosComplement(y)) == TwosComplement(x - y)
  {
    var q := Quotient(x);
    Residue(x + y, -q);
    var p := Quotient(y);
    Residue(x - y, p);
  }

  /** Wrapping the operands first, and then the result, is wrapping the exact result. */
  lemma WrapOnce(x: int, y: int)
    ensures TwosComplement(TwosComplement(x) + TwosComplement(y)) == TwosComplement(x + y)
    ensures TwosComplement(TwosComplement(x) - TwosComplement(y)) == TwosComplement(x - y)
    ensures TwosComplement(TwosComplement(x) * TwosComplement(y)) == TwosComplement(x * y)
  {
    var p := Quotient(x);
    var q := Quotient(y);
    Residue(x + y, -p - q);
    Residue(x - y, q - p);
    ProductOfResidues(x, p, y, q, 0x1_0000_0000_0000_0000);
    Residue(x * y, p * q * 0x1_0000_0000_0000_0000 - p * y - q * x);
  }

  lemma ProductOfResidues(x: int, p: int, y: int, q: int, m: int)
    ensures (x - p * m) * (y - q * m) == x * y + (p * q * m - p * y - q * x) * m
  {
  }

  lemma WrappedIs(x: int)
    ensures -0x8000_0000_0000_0000 <= TwosComplement(x) < 0x8000_0000_0000_0000
    ensures (TwosComplement(x) - x) % 0x1_0000_0000_0000_0000 == 0
    ensures -0x8000_0000_0000_0000 <= x < 0x8000_0000_0000_0000 ==> TwosComplement(x) == x
  {
  }

  /** 64-bit arithmetic obeys the laws; a wrapped number is the one in range that differs by a multiple of 2^64. */
  lemma Wrap64IsLawful()
    ensures Lawful(Wrap64())
    ensures forall x :: -0x8000_0000_0000_0000 <= Wrap64()(x) < 0x8000_0000_0000_0000
    ensures forall x :: (Wrap64()(x) - x) % 0x1_0000_0000_0000_0000 == 0
    ensures forall x | -0x8000_0000_0000_0000 <= x < 0x8000_0000_0000_0000 :: Wrap64()(x) == x
  {
    forall x
      ensures -0x8000_0000_0000_0000 <= Wrap64()(x) < 0x8000_0000_0000_0000
      ensures (Wrap64()(x) - x) % 0x1_0000_0000_0000_0000 == 0
      ensures -0x8000_0000_0000_0000 <= x < 0x8000_0000_0000_0000 ==> Wrap64()(x) == x
    {
      WrappedIs(x);
    }
    forall x, y | At(x, y)
      ensures Wrap64()(Wrap64()(x) + y) == Wrap64()(x + y) && Wrap64()(x - Wrap64()(y)) == Wrap64()(x - y)
    {
      TwosComplementAbsorbs(x, y);
    }
  }
}
