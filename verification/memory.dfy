/**
 * The address space as a map from the mapped addresses to their bytes, and
 * headers of little-endian 64-bit words in it.
 */
module Memory {
  // A byte is present in the map exactly when it is mapped, so every load and
  // store below has to prove that it stays inside mapped memory.

  type Byte = b: int | 0 <= b < 256

  type Bytes = map<nat, Byte>

  const WORD_LIMIT: nat := 0x1_0000_0000_0000_0000

  const WORD_BYTES: nat := 8

  ghost predicate Mapped(m: Bytes, a: nat, n: nat) {
    forall x: nat :: a <= x < a + n ==> x in m
  }

  /** The same addresses are mapped and no byte outside [a, a + n) differs. */
  ghost predicate ChangedOnlyIn(m: Bytes, m': Bytes, a: nat, n: nat) {
    && m'.Keys == m.Keys
    && forall x: nat :: x in m && !(a <= x < a + n) ==> m'[x] == m[x]
  }

  ghost predicate SameOn(m: Bytes, m': Bytes, a: nat, n: nat) {
    forall x: nat :: a <= x < a + n ==> x in m && x in m' && m'[x] == m[x]
  }

  ghost predicate Filled(m: Bytes, a: nat, n: nat, v: Byte) {
    forall x: nat :: a <= x < a + n ==> x in m && m[x] == v
  }

  function Pow256(n: nat): nat {
    if n == 0 then 1 else 256 * Pow256(n - 1)
  }

  function Load(m: Bytes, a: nat, n: nat): nat
    requires Mapped(m, a, n)
    decreases a + n, n
  {
    if n == 0 then 0 else m[a] + 256 * Load(m, a + 1, n - 1)
  }

  function Store(m: Bytes, a: nat, n: nat, w: nat): (m': Bytes)
    requires Mapped(m, a, n)
    ensures ChangedOnlyIn(m, m', a, n)
    decreases a + n, n
  {
    if n == 0 then m else Store(m[a := w % 256], a + 1, n - 1, w / 256)
  }

  lemma {:induction false} LoadSame(m: Bytes, m': Bytes, a: nat, n: nat)
    requires SameOn(m, m', a, n)
    ensures Load(m', a, n) == Load(m, a, n)
    decreases a + n, n
  {
    if n > 0 {
      LoadSame(m, m', a + 1, n - 1);
    }
  }

  /** A word that fits in n bytes is read back as it was written. */
  lemma {:induction false} LoadAfterStore(m: Bytes, a: nat, n: nat, w: nat)
    requires Mapped(m, a, n) && w < Pow256(n)
    ensures Load(Store(m, a, n, w), a, n) == w
    decreases a + n, n
  {
    if n > 0 {
      LoadAfterStore(m[a := w % 256], a + 1, n - 1, w / 256);
      assert Store(m, a, n, w)[a] == w % 256;
    }
  }

  lemma WordFits(w: nat)
    requires w < WORD_LIMIT
    ensures w < Pow256(WORD_BYTES)
  {
    assert Pow256(8) == 256 * Pow256(7) == 256 * 256 * Pow256(6) == 256 * 256 * 256 * Pow256(5);
    assert Pow256(5) == 256 * Pow256(4) == 256 * 256 * Pow256(3) == 256 * 256 * 256 * Pow256(2);
    assert Pow256(2) == 256 * Pow256(1) == 256 * 256 * Pow256(0);
  }

  function Word(m: Bytes, a: nat): nat
    requires Mapped(m, a, WORD_BYTES)
  {
    Load(m, a, WORD_BYTES)
  }

  /** A 64-bit store. */
  method WriteWord(m: Bytes, a: nat, w: nat) returns (m': Bytes)
    requires Mapped(m, a, WORD_BYTES) && w < WORD_LIMIT
    ensures ChangedOnlyIn(m, m', a, WORD_BYTES) && Word(m', a) == w
  {
    WordFits(w);
    LoadAfterStore(m, a, WORD_BYTES, w);
    m' := Store(m, a, WORD_BYTES, w);
  }

  /** memset. */
  method Fill(m: Bytes, a: nat, n: nat, v: Byte) returns (m': Bytes)
    requires Mapped(m, a, n)
    ensures ChangedOnlyIn(m, m', a, n)
    ensures Filled(m', a, n, v)
  {
    m' := map x | x in m :: if a <= x < a + n then v else m[x];
  }

  /** A new anonymous mapping: its bytes read as zero. */
  method MapZero(m: Bytes, a: nat, n: nat) returns (m': Bytes)
    ensures forall x: nat :: x in m' <==> x in m || a <= x < a + n
    ensures forall x: nat :: x in m && !(a <= x < a + n) ==> m'[x] == m[x]
    ensures forall x: nat :: a <= x < a + n ==> x in m' && m'[x] == 0
  {
    m' := m;
    for k := 0 to n
      invariant forall x: nat :: x in m' <==> x in m || a <= x < a + k
      invariant forall x: nat :: x in m && !(a <= x < a + k) ==> m'[x] == m[x]
      invariant forall x: nat :: a <= x < a + k ==> x in m' && m'[x] == 0
    {
      m' := m'[a + k := 0];
    }
  }

  method Unmap(m: Bytes, a: nat, n: nat) returns (m': Bytes)
    ensures forall x: nat :: x in m' <==> x in m && !(a <= x < a + n)
    ensures forall x: nat :: x in m' ==> m'[x] == m[x]
  {
    m' := map x | x in m && !(a <= x < a + n) :: m[x];
  }

  // ----- struct mem_block: six words, 48 bytes -----

  const HEADER: nat := 48

  datatype Header = Header(allocId: nat, size: nat, usage: nat, regionStart: nat, regionSize: nat, next: nat)

  function SizeOf(m: Bytes, b: nat): nat requires Mapped(m, b, HEADER) { Word(m, b + 8) }

  function UsageOf(m: Bytes, b: nat): nat requires Mapped(m, b, HEADER) { Word(m, b + 16) }

  function RegionStartOf(m: Bytes, b: nat): nat requires Mapped(m, b, HEADER) { Word(m, b + 24) }

  function RegionSizeOf(m: Bytes, b: nat): nat requires Mapped(m, b, HEADER) { Word(m, b + 32) }

  function NextOf(m: Bytes, b: nat): nat requires Mapped(m, b, HEADER) { Word(m, b + 40) }

  function HeaderAt(m: Bytes, b: nat): Header
    requires Mapped(m, b, HEADER)
  {
    Header(Word(m, b), SizeOf(m, b), UsageOf(m, b), RegionStartOf(m, b), RegionSizeOf(m, b), NextOf(m, b))
  }

  predicate Fits(h: Header) {
    && h.allocId < WORD_LIMIT && h.size < WORD_LIMIT && h.usage < WORD_LIMIT
    && h.regionStart < WORD_LIMIT && h.regionSize < WORD_LIMIT && h.next < WORD_LIMIT
  }

  lemma HeaderSame(m: Bytes, m': Bytes, b: nat)
    requires SameOn(m, m', b, HEADER)
    ensures Mapped(m, b, HEADER) && Mapped(m', b, HEADER) && HeaderAt(m', b) == HeaderAt(m, b)
  {
    LoadSame(m, m', b, 8);
    LoadSame(m, m', b + 8, 8);
    LoadSame(m, m', b + 16, 8);
    LoadSame(m, m', b + 24, 8);
    LoadSame(m, m', b + 32, 8);
    LoadSame(m, m', b + 40, 8);
  }

  function SetField(h: Header, k: nat, w: nat): Header {
    match k
    case 0 => h.(allocId := w)
    case 1 => h.(size := w)
    case 2 => h.(usage := w)
    case 3 => h.(regionStart := w)
    case 4 => h.(regionSize := w)
    case _ => h.(next := w)
  }

  /** Overwriting one field of a header leaves its other five fields alone. */
  lemma FieldSet(m: Bytes, m': Bytes, b: nat, k: nat, w: nat)
    requires Mapped(m, b, HEADER) && k < 6
    requires ChangedOnlyIn(m, m', b + 8 * k, WORD_BYTES) && Word(m', b + 8 * k) == w
    ensures HeaderAt(m', b) == SetField(HeaderAt(m, b), k, w)
  {
    forall j: nat | j < 6 && j != k
      ensures Word(m', b + 8 * j) == Word(m, b + 8 * j)
    {
      LoadSame(m, m', b + 8 * j, WORD_BYTES);
    }
    assert Word(m', b + 8 * 0) == if k == 0 then w else Word(m, b + 8 * 0);
    assert Word(m', b + 8 * 1) == if k == 1 then w else Word(m, b + 8 * 1);
    assert Word(m', b + 8 * 2) == if k == 2 then w else Word(m, b + 8 * 2);
    assert Word(m', b + 8 * 3) == if k == 3 then w else Word(m, b + 8 * 3);
    assert Word(m', b + 8 * 4) == if k == 4 then w else Word(m, b + 8 * 4);
    assert Word(m', b + 8 * 5) == if k == 5 then w else Word(m, b + 8 * 5);
  }

  /** b->field k = w */
  method WriteField(m: Bytes, b: nat, k: nat, w: nat) returns (m': Bytes)
    requires Mapped(m, b, HEADER) && k < 6 && w < WORD_LIMIT
    ensures ChangedOnlyIn(m, m', b, HEADER)
    ensures HeaderAt(m', b) == SetField(HeaderAt(m, b), k, w)
  {
    m' := WriteWord(m, b + 8 * k, w);
    FieldSet(m, m', b, k, w);
  }

  /** All six fields of the header at b. */
  method WriteHeader(m: Bytes, b: nat, h: Header) returns (m': Bytes)
    requires Mapped(m, b, HEADER) && Fits(h)
    ensures ChangedOnlyIn(m, m', b, HEADER)
    ensures HeaderAt(m', b) == h
  {
    m' := WriteField(m, b, 0, h.allocId);
    m' := WriteField(m', b, 1, h.size);
    m' := WriteField(m', b, 2, h.usage);
    m' := WriteField(m', b, 3, h.regionStart);
    m' := WriteField(m', b, 4, h.regionSize);
    m' := WriteField(m', b, 5, h.next);
  }

  /** ALLOCATOR_SCRIBBLE: the payload behind a header is filled with one byte value. */
  method Scribble(m: Bytes, b: nat, size: nat, scribble: bool, v: Byte) returns (m': Bytes)
    requires Mapped(m, b, HEADER + size)
    ensures ChangedOnlyIn(m, m', b + HEADER, size)
    ensures HeaderAt(m', b) == HeaderAt(m, b)
    ensures scribble ==> Filled(m', b + HEADER, size, v)
  {
    m' := m;
    if scribble {
      m' := Fill(m, b + HEADER, size, v);
      HeaderSame(m, m', b);
    }
  }
}
