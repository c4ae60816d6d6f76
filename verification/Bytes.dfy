/** Bytes, big-endian numerals, and the seekable output that the muxer writes to. */
module Bytes {

  type byte = x: int | 0 <= x < 256

  datatype Option<+T> = None | Some(value: T)

  function Pow256(n: nat): (p: nat)
    ensures p >= 1
  {
    if n == 0 then 1 else 256 * Pow256(n - 1)
  }

  /** The low `n` bytes of `v`, most significant first: `v.to_be_bytes()[8 - n..]`. */
  function BigEndian(v: nat, n: nat): (s: seq<byte>)
    ensures |s| == n
  {
    if n == 0 then [] else BigEndian(v / 256, n - 1) + [v % 256]
  }

  /** The number a big-endian byte string stands for. */
  function FromBigEndian(s: seq<byte>): (v: nat)
  {
    if |s| == 0 then 0 else FromBigEndian(s[..|s| - 1]) * 256 + s[|s| - 1]
  }

  lemma {:induction false} BigEndianRoundTrip(v: nat, n: nat)
    requires v < Pow256(n)
    ensures FromBigEndian(BigEndian(v, n)) == v
  {
    if n == 0 {
    } else {
      var (q, b) := (v / 256, v % 256);
      assert v == 256 * q + b && q < Pow256(n - 1);
      BigEndianRoundTrip(q, n - 1);
      FromSnoc(BigEndian(q, n - 1), b);
    }
  }

  lemma {:induction false} FromSnoc(s: seq<byte>, b: byte)
    ensures FromBigEndian(s + [b]) == FromBigEndian(s) * 256 + b
  {
    assert (s + [b])[..|s|] == s;
  }

  /** Equally many bytes that read as the same number are the same bytes. */
  lemma {:induction false} FromBigEndianInjective(s: seq<byte>, t: seq<byte>)
    requires |s| == |t| && FromBigEndian(s) == FromBigEndian(t)
    ensures s == t
  {
    if |s| == 0 {
    } else {
      var n := |s| - 1;
      FromBigEndianInjective(s[..n], t[..n]);
      assert s == s[..n] + [s[n]] && t == t[..n] + [t[n]];
    }
  }

  /** Bounds on a number are bounds on its leading byte. */
  lemma {:induction false} LeadingByteBounds(v: nat, n: nat, lo: nat, hi: nat)
    requires n >= 1 && lo < hi <= 256
    requires lo * Pow256(n - 1) <= v < hi * Pow256(n - 1)
    ensures lo <= BigEndian(v, n)[0] < hi
  {
    if n == 1 {
      assert BigEndian(v, 1) == [v % 256];
    } else {
      var p := Pow256(n - 2);
      assert lo * (256 * p) == 256 * (lo * p);
      assert hi * (256 * p) == 256 * (hi * p);
      LeadingByteBounds(v / 256, n - 1, lo, hi);
    }
  }

  lemma {:induction false} Assoc<T>(a: seq<T>, b: seq<T>, c: seq<T>)
    ensures (a + b) + c == a + (b + c)
    ensures a == [] ==> a + b == b
  {
  }

  // ----- output

  /** Bytes written at a position replace what is there and extend the contents when they reach past the end;
      a gap before them is filled with zeros. */
  function Overwrite(contents: seq<byte>, at: nat, b: seq<byte>): (r: seq<byte>)
  {
    Upto(contents, at) + b + From(contents, at + |b|)
  }

  function Upto(s: seq<byte>, n: nat): (r: seq<byte>)
    ensures |r| == n
  {
    if n <= |s| then s[..n] else s + seq(n - |s|, _ => 0)
  }

  function From(s: seq<byte>, n: nat): (r: seq<byte>) { if n <= |s| then s[n..] else [] }

  /** What an output holds once `head` has been written over the start of `under`. */
  function Overlay(head: seq<byte>, under: seq<byte>): (r: seq<byte>) { head + From(under, |head|) }

  lemma {:induction false} WriteOverwrites(head: seq<byte>, under: seq<byte>, b: seq<byte>)
    ensures Overlay(head + b, under) == Overwrite(Overlay(head, under), |head|, b)
  {
  }

  lemma {:induction false} SeekShows(contents: seq<byte>, at: nat)
    ensures at <= |contents| ==> Overlay(Upto(contents, at), contents) == contents
  {
  }

  /** A `Write + Seek` output: the bytes before the position, and the contents as they were when the position
      was last set, which show wherever nothing was written since. */
  class Sink {
    var head: seq<byte>
    var under: seq<byte>

    function Contents(): (s: seq<byte>)
      reads this
    {
      Overlay(head, under)
    }

    constructor ()
      ensures head == [] && under == []
    {
      head, under := [], [];
    }

    /** An output that holds some bytes, at any position in or past them. */
    constructor At(contents: seq<byte>, position: nat)
      ensures head == Upto(contents, position) && under == contents
    {
      head, under := Upto(contents, position), contents;
    }

    method WriteAll(b: seq<byte>)
      modifies this`head
      ensures head == old(head) + b
      ensures Contents() == Overwrite(old(Contents()), |old(head)|, b)
    {
      WriteOverwrites(head, under, b);
      head := head + b;
    }

    /** `seek(SeekFrom::Start(offset))`. */
    method SeekStart(offset: nat)
      modifies this
      ensures head == Upto(old(Contents()), offset) && under == old(Contents())
    {
      under := Contents();
      head := Upto(under, offset);
    }

    /** `seek(SeekFrom::End(0))`. */
    method SeekEnd()
      modifies this
      ensures head == under == Contents() == old(Contents())
    {
      under := Contents();
      head := under;
    }
  }
}
