/** The address split of four-level paging (section 4.5 of the Intel 64 SDM volume 3A).
    Shifts and masks on unsigned words are written as division and remainder. */
module Mmu {
  const PGSIZE: nat := 0x1000
  const NENTRIES: nat := 512
  const WORD: nat := 0x1_0000_0000_0000_0000

  function PML4(la: nat): nat { la / 0x80_0000_0000 % 512 }
  function PDPE(la: nat): nat { la / 0x4000_0000 % 512 }
  function PDX(la: nat): nat { la / 0x20_0000 % 512 }
  function PTX(la: nat): nat { la / 0x1000 % 512 }
  function PGOFF(la: nat): nat { la % 0x1000 }

  function PGADDR(m: nat, p: nat, d: nat, t: nat, o: nat): nat {
    m * 0x80_0000_0000 + p * 0x4000_0000 + d * 0x20_0000 + t * 0x1000 + o
  }

  type Idx = i: nat | i < 512

  /** A virtual page, as the four indices a walk uses. */
  datatype VPage = VPage(m: Idx, p: Idx, d: Idx, t: Idx)

  function Split(la: nat): VPage { VPage(PML4(la), PDPE(la), PDX(la), PTX(la)) }

  /** The 36-bit virtual page number a walk can tell apart. */
  function Vpn(la: nat): nat { la / 0x1000 % 0x10_0000_0000 }

  /** Dropping 21, 30 and 39 bits drops 12 bits and then nine at a time. */
  lemma NestedShifts(la: nat)
    ensures la / 0x20_0000 == la / 0x1000 / 512
    ensures la / 0x4000_0000 == la / 0x20_0000 / 512
    ensures la / 0x80_0000_0000 == la / 0x4000_0000 / 512
  {
  }

  /** The four base-512 digits of a page number. */
  lemma Digits(p: nat)
    ensures p % 0x10_0000_0000
         == p / 512 / 512 / 512 % 512 * 0x800_0000 + p / 512 / 512 % 512 * 0x4_0000 + p / 512 % 512 * 512 + p % 512
  {
    var h := p / 512 / 512 / 512 / 512;
    assert p == h * 0x10_0000_0000 + p / 512 / 512 / 512 % 512 * 0x800_0000 + p / 512 / 512 % 512 * 0x4_0000 + p / 512 % 512 * 512 + p % 512;
  }

  /** PGADDR undoes the five-way split on the low 48 bits. */
  lemma SplitRoundTrip(la: nat)
    ensures PGADDR(PML4(la), PDPE(la), PDX(la), PTX(la), PGOFF(la)) == la % 0x1_0000_0000_0000
    ensures Vpn(la) == PML4(la) * 0x800_0000 + PDPE(la) * 0x4_0000 + PDX(la) * 0x200 + PTX(la)
  {
    NestedShifts(la);
    Digits(la / 0x1000);
    Low48(la);
  }

  lemma Low48(la: nat)
    ensures la % 0x1_0000_0000_0000 == Vpn(la) * 0x1000 + PGOFF(la)
  {
  }

  lemma JoinRoundTrip(m: nat, p: nat, d: nat, t: nat, o: nat)
    requires m < 512 && p < 512 && d < 512 && t < 512 && o < 0x1000
    ensures var la := PGADDR(m, p, d, t, o);
            Split(la) == VPage(m, p, d, t) && PGOFF(la) == o
  {
    var la := PGADDR(m, p, d, t, o);
    assert la / 0x1000 == m * 0x800_0000 + p * 0x4_0000 + d * 0x200 + t;
    assert la / 0x20_0000 == m * 0x4_0000 + p * 0x200 + d;
    assert la / 0x4000_0000 == m * 0x200 + p;
    assert la / 0x80_0000_0000 == m;
  }

  /** The 9/9/9/9 split is injective: two addresses take the same walk exactly when
      their virtual page numbers agree. */
  lemma SameWalkIffSameVpn(a: nat, b: nat)
    ensures Split(a) == Split(b) <==> Vpn(a) == Vpn(b)
  {
    SplitRoundTrip(a);
    SplitRoundTrip(b);
    if Vpn(a) == Vpn(b) {
      DigitsUnique(PML4(a), PDPE(a), PDX(a), PTX(a), PML4(b), PDPE(b), PDX(b), PTX(b));
    }
  }

  lemma DigitsUnique(a: nat, b: nat, c: nat, d: nat, a': nat, b': nat, c': nat, d': nat)
    requires a < 512 && b < 512 && c < 512 && d < 512 && a' < 512 && b' < 512 && c' < 512 && d' < 512
    requires a * 0x800_0000 + b * 0x4_0000 + c * 0x200 + d == a' * 0x800_0000 + b' * 0x4_0000 + c' * 0x200 + d'
    ensures a == a' && b == b' && c == c' && d == d'
  {
  }

  lemma SamePageSameSplit(a: nat, b: nat)
    requires a / PGSIZE == b / PGSIZE
    ensures Split(a) == Split(b)
  {
    NestedShifts(a);
    NestedShifts(b);
  }
}
