/** Lists of bit fields: what the writer appends, the reader gives back. */
module FieldCodec {
  import opened Bytes
  import opened BitReader
  import opened BitWriter

  datatype Field = Field(value: nat, width: nat)

  function Width(fs: seq<Field>): nat {
    if fs == [] then 0 else Width(fs[..|fs| - 1]) + fs[|fs| - 1].width
  }

  ghost predicate Writable(fs: seq<Field>) {
    forall f :: f in fs ==> 1 <= f.width <= 64
  }

  /** The fields stand in c one behind the other from pos on, each cut to its width. */
  ghost predicate Laid(c: seq<byte>, pos: nat, fs: seq<Field>) {
    pos + Width(fs) <= 8 * |c|
    && forall i :: 0 <= i < |fs| ==> FieldAt(c, pos, fs, i)
  }

  ghost predicate FieldAt(c: seq<byte>, pos: nat, fs: seq<Field>, i: nat)
    requires i < |fs|
  {
    var p := pos + Width(fs[..i]);
    p + fs[i].width <= 8 * |c| && BitsVal(c, p, fs[i].width) == fs[i].value % Pow2(fs[i].width)
  }

  method PutFields(w: BitStreamWriter, fs: seq<Field>)
    requires w.Valid() && Writable(fs)
    modifies w
    ensures w.Valid()
    ensures w.Pos() == old(w.Pos()) + Width(fs)
    ensures Laid(w.bits, old(w.Pos()), fs)
    ensures Keeps(old(w.bits), w.bits, old(w.Pos()))
  {
    hide BitsVal, Pow2;
    ghost var pos, from := w.Pos(), w.bits;
    KeepsPrefix(from, from, pos);
    for i := 0 to |fs|
      invariant w.Valid()
      invariant w.Pos() == pos + Width(fs[..i])
      invariant Laid(w.bits, pos, fs[..i])
      invariant Keeps(from, w.bits, pos)
    {
      ghost var c := w.bits;
      w.PutUint64(fs[i].value, fs[i].width);
      KeepsTrans(from, c, w.bits, pos, pos + Width(fs[..i]));
      LaidStep(c, w.bits, pos, fs, i);
    }
    assert fs[..|fs|] == fs;
  }

  lemma LaidStep(c0: seq<byte>, c1: seq<byte>, pos: nat, fs: seq<Field>, i: nat)
    requires i < |fs| && Laid(c0, pos, fs[..i])
    requires Keeps(c0, c1, pos + Width(fs[..i]))
    requires FieldAt(c1, pos, fs, i)
    ensures Laid(c1, pos, fs[..i + 1]) && Width(fs[..i + 1]) == Width(fs[..i]) + fs[i].width
  {
    hide BitsVal, Pow2;
    var pre := fs[..i + 1];
    assert pre[..i] == fs[..i];
    forall k: nat | k < |pre|
      ensures FieldAt(c1, pos, pre, k)
    {
      assert pre[..k] == fs[..k];
      if k < i {
        assert FieldAt(c0, pos, fs[..i], k);
        assert fs[..i][..k] == fs[..k];
        WidthSum(fs, k, i);
        assert BitsVal(c1, pos + Width(fs[..k]), fs[k].width) == BitsVal(c0, pos + Width(fs[..k]), fs[k].width);
      }
    }
  }

  lemma WidthSum(fs: seq<Field>, k: nat, i: nat)
    requires k < i <= |fs|
    ensures Width(fs[..k]) + fs[k].width <= Width(fs[..i])
  {
    assert fs[..i][..i - 1] == fs[..i - 1];
    if k < i - 1 {
      WidthSum(fs, k, i - 1);
    }
  }

  method GetFields(r: BitStream, fs: seq<Field>) returns (vals: seq<nat>)
    requires r.Valid() && Writable(fs) && Laid(r.bits, r.Pos(), fs)
    modifies r
    ensures r.Valid() && r.Pos() == old(r.Pos()) + Width(fs)
    ensures |vals| == |fs| && forall i :: 0 <= i < |fs| ==> vals[i] == fs[i].value % Pow2(fs[i].width)
  {
    hide BitsVal, Pow2;
    ghost var pos := r.Pos();
    vals := [];
    for i := 0 to |fs|
      invariant r.Valid() && r.Pos() == pos + Width(fs[..i])
      invariant |vals| == i && forall k :: 0 <= k < i ==> vals[k] == fs[k].value % Pow2(fs[k].width)
    {
      assert FieldAt(r.bits, pos, fs, i);
      assert fs[..i + 1][..i] == fs[..i];
      var v := r.GetBits(fs[i].width);
      vals := vals + [v];
    }
    assert fs[..|fs|] == fs;
  }

  /** Writing any list of fields and reading the same widths returns every value, cut to its width. */
  method WriteThenRead(size: nat, junk: seq<Field>, fs: seq<Field>) returns (vals: seq<nat>, written: nat, read: nat)
    requires Writable(junk) && Writable(fs)
    ensures |vals| == |fs| && forall i :: 0 <= i < |fs| ==> vals[i] == fs[i].value % Pow2(fs[i].width)
    ensures written == read == Width(fs)
  {
    hide BitsVal, Pow2, Laid;
    var w := new BitStreamWriter(size);
    PutFields(w, junk);
    w.Reset();
    PutFields(w, fs);
    var b := w.Bits();
    LaidPrefix(w.bits, b, 0, fs);
    var r := new BitStream(b);
    vals := GetFields(r, fs);
    written, read := 8 * w.byteoffset + w.bitsoffset, 8 * r.bytesOffset + r.bitsOffset;
  }

  lemma LaidPrefix(c: seq<byte>, b: seq<byte>, pos: nat, fs: seq<Field>)
    requires Laid(c, pos, fs) && b <= c && pos + Width(fs) <= 8 * |b|
    ensures Laid(b, pos, fs)
  {
    hide BitsVal, Pow2;
    BitsExtend(b, c);
    forall i | 0 <= i < |fs|
      ensures FieldAt(b, pos, fs, i)
    {
      assert FieldAt(c, pos, fs, i);
      WidthSum(fs, i, |fs|);
      assert fs[..|fs|] == fs;
    }
  }
}
