/** The pure helpers of the BinImage bridge: packing a source line and its
    flags into one HUNK_DEBUG line value and back, and splitting a source
    path at its last '/'. */
module LinePack {
  import opened Base

  function Pow2(k: nat): (r: nat)
    ensures r >= 1
  {
    if k == 0 then 1 else 2 * Pow2(k - 1)
  }

  /** Python's `|` on non-negative integers, bit by bit. */
  function BitOr(a: nat, b: nat): nat
    decreases a
  {
    if a == 0 then b
    else if b == 0 then a
    else 2 * BitOr(a / 2, b / 2) + (if a % 2 == 1 || b % 2 == 1 then 1 else 0)
  }

  /** OR with a value whose low k bits are clear is addition. */
  lemma {:induction false} OrHighBits(a: nat, b: nat, k: nat)
    requires a < Pow2(k)
    ensures BitOr(a, b * Pow2(k)) == a + b * Pow2(k)
    decreases k
  {
    if k > 0 && a != 0 && b != 0 {
      var x := b * Pow2(k);
      assert x == 2 * (b * Pow2(k - 1));
      assert x / 2 == b * Pow2(k - 1) && x % 2 == 0;
      OrHighBits(a / 2, b, k - 1);
    }
  }

  /** OR of two k-bit values is a k-bit value. */
  lemma {:induction false} OrBelow(a: nat, b: nat, k: nat)
    requires a < Pow2(k) && b < Pow2(k)
    ensures BitOr(a, b) < Pow2(k)
    decreases k
  {
    if k > 0 && a != 0 && b != 0 {
      OrBelow(a / 2, b / 2, k - 1);
    }
  }

  /** OR never clears a bit, so it is at least each operand. */
  lemma {:induction false} OrAtLeast(a: nat, b: nat)
    ensures BitOr(a, b) >= a && BitOr(a, b) >= b
    decreases a
  {
    if a != 0 && b != 0 {
      OrAtLeast(a / 2, b / 2);
    }
  }

  lemma {:induction false} Pow2Add(a: nat, b: nat)
    ensures Pow2(a + b) == Pow2(a) * Pow2(b)
    decreases a
  {
    if a > 0 {
      Pow2Add(a - 1, b);
    }
  }

  lemma Pow2Values()
    ensures Pow2(24) == TWO_24 && Pow2(32) == TWO_32
  {
    assert Pow2(4) == 16;
    Pow2Add(4, 4);
    Pow2Add(8, 8);
    Pow2Add(16, 8);
    Pow2Add(16, 16);
  }

  /** The export side: `src_line | (flags << 24)`. */
  function Pack(line: nat, flags: nat): nat {
    BitOr(line, flags * TWO_24)
  }

  /** The import side: `v & 0xffffff` and `(v & 0xff000000) >> 24`. */
  function Unpack(v: nat): (nat, nat) {
    (v % TWO_24, (v / TWO_24) % 256)
  }

  /** A 24-bit line with 8-bit flags survives packing and unpacking. */
  lemma UnpackPack(line: nat, flags: nat)
    requires line < TWO_24 && flags < 256
    ensures Pack(line, flags) == line + flags * TWO_24
    ensures Unpack(Pack(line, flags)) == (line, flags)
  {
    Pow2Values();
    OrHighBits(line, flags, 24);
    var v := line + flags * TWO_24;
    assert v / TWO_24 == flags && v % TWO_24 == line;
  }

  /** Every 32-bit stored value is the packing of its unpacked parts. */
  lemma PackUnpack(v: nat)
    requires v < TWO_32
    ensures Unpack(v).0 < TWO_24 && Unpack(v).1 < 256
    ensures Pack(Unpack(v).0, Unpack(v).1) == v
  {
    Pow2Values();
    var (line, flags) := Unpack(v);
    assert v / TWO_24 < 256;
    assert flags == v / TWO_24;
    OrHighBits(line, flags, 24);
  }

  /** The packed value fits the 32-bit field HunkDebug.encode writes exactly
      when the line fits 32 bits and the flags fit 8. */
  lemma PackFits(line: nat, flags: nat)
    ensures Pack(line, flags) < TWO_32 <==> line < TWO_32 && flags < 256
  {
    Pow2Values();
    OrAtLeast(line, flags * TWO_24);
    if line < TWO_32 && flags < 256 {
      OrBelow(line, flags * TWO_24, 32);
    }
  }

  /** A line of 2^24 or more exported without flags comes back with its
      upper bits read as flags. */
  lemma WideLineBecomesFlags(line: nat)
    requires TWO_24 <= line < TWO_32
    ensures Unpack(Pack(line, 0)).0 == line % TWO_24 != line
    ensures Unpack(Pack(line, 0)).1 == line / TWO_24 != 0
  {
  }

  // ---------------------------------------------------------------------------
  // Paths

  const SLASH: Byte := 0x2f

  /** str.rfind('/'): the index of the last '/', if any. */
  function LastSlash(s: seq<Byte>): (r: Option<nat>)
    ensures r.None? ==> forall j :: 0 <= j < |s| ==> s[j] != SLASH
    ensures r.Some? ==> r.value < |s| && s[r.value] == SLASH &&
                        forall j :: r.value < j < |s| ==> s[j] != SLASH
    decreases |s|
  {
    if s == [] then None
    else if s[|s| - 1] == SLASH then Some(|s| - 1)
    else LastSlash(s[..|s| - 1])
  }

  /** The directory and the file name of a path, split at the last '/';
      the directory is empty when there is no '/'. */
  function SplitPath(s: seq<Byte>): (seq<Byte>, seq<Byte>) {
    match LastSlash(s)
    case None => ([], s)
    case Some(p) => (s[..p], s[p + 1..])
  }

  /** The file part holds no '/', and the two parts rebuild the path. */
  lemma SplitPathSpec(s: seq<Byte>)
    ensures var (dir, file) := SplitPath(s);
            && (forall j :: 0 <= j < |file| ==> file[j] != SLASH)
            && (if SLASH in s then dir + [SLASH] + file == s else dir == [] && file == s)
  {
    var (dir, file) := SplitPath(s);
    match LastSlash(s)
    case None =>
    case Some(p) =>
      assert s == s[..p] + [SLASH] + s[p + 1..];
  }
}
