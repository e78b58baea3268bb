/** Name fields of HunkBlock: a longword count of 4-byte units (with an
    optional type tag in its top byte) followed by the NUL-padded text
    (HunkBlock._read_name, _read_name_size and _write_name). */
module Names {
  import opened Base

  /** Outcome of _read_name_size: the (-1, None) of a short read, or the
      (size, text) pair. */
  datatype NameRead = NameShort | NameOk(size: nat, text: seq<Byte>)

  predicate NulFree(s: seq<Byte>) {
    forall i :: 0 <= i < |s| ==> s[i] != 0
  }

  /** Position of the first NUL in d, or |d| when there is none (str.find). */
  function FirstNul(d: seq<Byte>): (i: nat)
    ensures i <= |d|
    ensures NulFree(d[..i])
    ensures i < |d| ==> d[i] == 0
  {
    if d == [] then 0
    else if d[0] == 0 then 0
    else
      var k := FirstNul(d[1..]);
      assert d[..k + 1] == [d[0]] + d[1..][..k];
      k + 1
  }

  /** Number of longwords _write_name uses for n bytes: ceil(n / 4). */
  function NameLongs(n: nat): (k: nat)
    ensures 4 * k >= n && 4 * k < n + 4
  {
    (n + 3) / 4
  }

  /** _read_name_size: (num_longs & 0xffffff) * 4 bytes, trimmed at the first
      NUL. A short read gives NameShort (after consuming what was there). */
  function ReadNameSize(s: seq<Byte>, pos: nat, numLongs: nat): (r: Read<NameRead>)
    requires pos <= |s|
    ensures var size := (numLongs % TWO_24) * 4;
            && r.next <= |s|
            && (r.value.NameShort? <==> pos + size > |s|)
            && (r.value.NameShort? ==> r.next == |s|)
            && (r.value.NameOk? ==> r.next == pos + size && |r.value.text| <= size)
  {
    var size := (numLongs % TWO_24) * 4;
    var data := ReadUpTo(s, pos, size);
    if |data.value| < size then Read(NameShort, data.next)
    else
      var e := FirstNul(data.value);
      if e == |data.value| then Read(NameOk(size, data.value), data.next)
      else if e == 0 then Read(NameOk(0, []), data.next)
      else Read(NameOk(size, data.value[..e]), data.next)
  }

  /** The text _read_name_size returns is the NUL-free prefix of the field;
      the size is the field's, except 0 when the field starts with a NUL. */
  lemma ReadNameSizeText(s: seq<Byte>, pos: nat, numLongs: nat)
    requires pos <= |s|
    ensures var r := ReadNameSize(s, pos, numLongs);
            var size := (numLongs % TWO_24) * 4;
            r.value.NameOk? ==>
              && NulFree(r.value.text)
              && pos + |r.value.text| <= |s|
              && r.value.text == s[pos..pos + |r.value.text|]
              && (|r.value.text| < size ==> s[pos + |r.value.text|] == 0)
              && r.value.size == (if r.value.text == [] && size > 0 && s[pos] == 0 then 0 else size)
  {
    var size := (numLongs % TWO_24) * 4;
    var data := ReadUpTo(s, pos, size);
    if |data.value| == size {
      var e := FirstNul(data.value);
      assert data.value == s[pos..pos + size];
      if e < |data.value| {
        assert s[pos + e] == data.value[e] == 0;
      }
      if 0 < e < |data.value| {
        assert data.value[..e] == s[pos..pos + e];
      }
    }
  }

  /** _read_name: a zero count is the list terminator (0, ""). */
  function ReadName(s: seq<Byte>, pos: nat): (r: Result<Read<NameRead>>)
    requires pos <= |s|
    ensures r.Ok? <==> pos + 4 <= |s|
    ensures r.Ok? ==> pos + 4 <= r.value.next <= |s|
    ensures r.Ok? && ReadLongAt(s, pos).value.value == 0 ==> r.value == Read(NameOk(0, []), pos + 4)
  {
    var n :- ReadLongAt(s, pos);
    if n.value == 0 then Ok(Read(NameOk(0, []), n.next))
    else Ok(ReadNameSize(s, n.next, n.value))
  }

  /** The count longword _write_name emits: ceil(n/4), the tag in bits 24-31. */
  function NameCount(name: seq<Byte>, tag: Option<nat>): nat
  {
    NameLongs(|name|) + (if tag.Some? then tag.value * TWO_24 else 0)
  }

  predicate CanWriteName(name: seq<Byte>, tag: Option<nat>) {
    if tag.Some? then tag.value < 256 && NameLongs(|name|) < TWO_24
    else NameLongs(|name|) < TWO_32
  }

  /** _write_name: the count longword, then the text zero-padded to 4 bytes. */
  function EncodeName(name: seq<Byte>, tag: Option<nat>): (r: seq<Byte>)
    requires CanWriteName(name, tag)
    ensures |r| == 4 + 4 * NameLongs(|name|) && |r| % 4 == 0
  {
    var count := NameCount(name, tag);
    Long(count) + name + Zeros(4 * NameLongs(|name|) - |name|)
  }

  /** The written field is the count, the text, then zero padding. */
  lemma EncodeNameLayout(name: seq<Byte>, tag: Option<nat>)
    requires CanWriteName(name, tag)
    ensures EncodeName(name, tag)[..4] == Long(NameCount(name, tag))
    ensures EncodeName(name, tag)[4..4 + |name|] == name
    ensures forall i :: 4 + |name| <= i < |EncodeName(name, tag)| ==> EncodeName(name, tag)[i] == 0
  {
  }

  /** The tag and the unit count are recovered from the count longword. */
  lemma NameCountSplit(name: seq<Byte>, tag: Option<nat>)
    requires CanWriteName(name, tag)
    ensures NameCount(name, tag) % TWO_24 == (if tag.Some? then NameLongs(|name|) else NameLongs(|name|) % TWO_24)
    ensures tag.Some? ==> NameCount(name, tag) / TWO_24 == tag.value
  {
  }

  /** A NUL-free prefix followed by a NUL (or by nothing) ends where str.find
      finds the first NUL. */
  lemma {:induction false} FirstNulAfter(name: seq<Byte>, d: seq<Byte>)
    requires NulFree(name) && |name| <= |d| && d[..|name|] == name
    requires |name| < |d| ==> d[|name|] == 0
    ensures FirstNul(d) == |name|
  {
    if name != [] {
      assert d[0] == name[0] != 0;
      assert d[1..][..|name| - 1] == name[1..];
      assert |name| < |d| ==> d[1..][|name| - 1] == d[|name|];
      FirstNulAfter(name[1..], d[1..]);
    }
  }

  /** A NUL-free name written by _write_name reads back unchanged by
      _read_name_size, consuming exactly the padded region. */
  lemma ReadNameSizeOfEncoded(name: seq<Byte>, tag: Option<nat>, s: seq<Byte>, pos: nat)
    requires CanWriteName(name, tag) && NulFree(name) && NameLongs(|name|) < TWO_24
    requires pos + |EncodeName(name, tag)| <= |s|
    requires s[pos..pos + |EncodeName(name, tag)|] == EncodeName(name, tag)
    ensures ReadNameSize(s, pos + 4, NameCount(name, tag)) ==
            Read(NameOk(4 * NameLongs(|name|), name), pos + |EncodeName(name, tag)|)
  {
    var enc := EncodeName(name, tag);
    var size := 4 * NameLongs(|name|);
    EncodeNameLayout(name, tag);
    NameCountSplit(name, tag);
    assert (NameCount(name, tag) % TWO_24) * 4 == size;
    var data := s[pos + 4..pos + 4 + size];
    assert ReadUpTo(s, pos + 4, size).value == data;
    assert data == enc[4..];
    assert data[..|name|] == enc[4..4 + |name|] == name;
    if |name| < size {
      assert data[|name|] == enc[4 + |name|] == 0;
    }
    FirstNulAfter(name, data);
    if |name| == size {
      assert data == data[..|name|];
    }
  }

  /** _read_name of a written untagged NUL-free, non-empty name gives back the
      name; the count being non-zero keeps it from reading as a terminator. */
  lemma ReadNameOfEncoded(name: seq<Byte>, s: seq<Byte>, pos: nat)
    requires CanWriteName(name, None) && NulFree(name) && NameLongs(|name|) < TWO_24 && name != []
    requires pos + |EncodeName(name, None)| <= |s|
    requires s[pos..pos + |EncodeName(name, None)|] == EncodeName(name, None)
    ensures ReadName(s, pos) ==
            Ok(Read(NameOk(4 * NameLongs(|name|), name), pos + |EncodeName(name, None)|))
  {
    var enc := EncodeName(name, None);
    EncodeNameLayout(name, None);
    assert s[pos..pos + 4] == enc[..4] == Long(NameCount(name, None));
    ReadLongOfLong(NameCount(name, None), s, pos);
    ReadNameSizeOfEncoded(name, None, s, pos);
  }

  /** The empty name is written as the single longword 0: the list terminator. */
  lemma EmptyNameIsTerminator(s: seq<Byte>, pos: nat)
    requires pos + 4 <= |s| && s[pos..pos + 4] == EncodeName([], None)
    ensures ReadName(s, pos) == Ok(Read(NameOk(0, []), pos + 4))
  {
    ReadLongOfLong(0, s, pos);
  }
}
