/**
 * The XInput2 device descriptors the tablet code consumes, as plain values.
 *
 * `XIQueryDevice` hands back, per device, an id, a name and a list of
 * capability classes. Only two kinds of class matter to the tablet code: a
 * button class (the number of buttons and the packed bitmask of the buttons
 * currently down) and a valuator class (an axis number with its current
 * reading and its reported range). Every other class kind (keys, scrolling,
 * touch) is carried as `OtherClass` and ignored.
 */
module XInput {

  datatype ClassInfo =
    | ButtonClass(numButtons: nat, mask: seq<bv8>)
    | ValuatorClass(number: int, value: real, min: real, max: real)
    | OtherClass(classType: int)

  datatype DeviceInfo = DeviceInfo(deviceId: int, name: string, classes: seq<ClassInfo>)

  /** The number of bits in one byte of a button mask (`CHAR_BIT`). */
  const CharBit: nat := 8

  /**
   * Bit `j` of a packed button mask: byte `j / 8`, bit `j % 8` of that
   * byte, least-significant bit first.
   */
  function MaskBit(mask: seq<bv8>, j: nat): bool
    requires j / CharBit < |mask|
  {
    (mask[j / CharBit] >> (j % CharBit)) & 1 == 1
  }

  /**
   * The encoder side of the same layout: writes bit `j` in the same way as
   * the `XISetMask` macro of the XInput2 header.
   */
  function SetMaskBit(mask: seq<bv8>, j: nat): (r: seq<bv8>)
    requires j / CharBit < |mask|
    ensures |r| == |mask|
  {
    mask[j / CharBit := mask[j / CharBit] | (1 << (j % CharBit))]
  }

  /** Raising bit `j` makes bit `j` read as set and leaves every other bit as it was. */
  lemma SetMaskBitReads(mask: seq<bv8>, j: nat, i: nat)
    requires j / CharBit < |mask| && i / CharBit < |mask|
    ensures MaskBit(SetMaskBit(mask, j), i) == (i == j || MaskBit(mask, i))
  {
    var m := SetMaskBit(mask, j);
    if i / CharBit == j / CharBit {
      var b := mask[i / CharBit];
      var p, q := i % CharBit, j % CharBit;
      assert m[i / CharBit] == b | (1 << q);
      assert (i == j) == (p == q);
      BitOfOr(b, p, q);
    } else {
      assert m[i / CharBit] == mask[i / CharBit];
    }
  }

  /** Within one byte: bit `p` of `b | (1 << q)` is set exactly when `p == q` or it was set in `b`. */
  lemma BitOfOr(b: bv8, p: nat, q: nat)
    requires p < CharBit && q < CharBit
    ensures ((b | (1 << q)) >> p) & 1 == 1 <==> p == q || (b >> p) & 1 == 1
  {
    var pb, qb := p as bv8, q as bv8;
    assert ((b | (1 << qb)) >> pb) & 1 == 1 <==> pb == qb || (b >> pb) & 1 == 1;
  }

  /** The all-clear mask of `n` bytes. */
  function ZeroMask(n: nat): (r: seq<bv8>)
    ensures |r| == n
    ensures forall j: nat :: j / CharBit < n ==> !MaskBit(r, j)
  {
    seq(n, _ => 0)
  }

  /**
   * The mask a server would report for the button states `down`: start from
   * the zero mask of `(|down| + 7) / 8` bytes and raise each bit that is down.
   */
  function MaskOf(down: seq<bool>): (r: seq<bv8>)
    ensures |r| == (|down| + CharBit - 1) / CharBit
  {
    if |down| == 0 then []
    else
      var m := Widen(MaskOf(down[..|down| - 1]), (|down| + CharBit - 1) / CharBit);
      if down[|down| - 1] then SetMaskBit(m, |down| - 1) else m
  }

  /** Pads a mask with zero bytes up to `n` bytes; the padding reads as clear. */
  function Widen(mask: seq<bv8>, n: nat): (r: seq<bv8>)
    requires |mask| <= n
    ensures |r| == n
    ensures forall j: nat :: j / CharBit < n ==> MaskBit(r, j) == (j / CharBit < |mask| && MaskBit(mask, j))
  {
    var r := mask + ZeroMask(n - |mask|);
    assert forall k :: 0 <= k < |mask| ==> r[k] == mask[k];
    r
  }

  /**
   * Round trip: reading bit `j` of the mask built from `down` gives back
   * `down[j]`, and the padding bits past the last button read as clear.
   */
  lemma {:induction false} MaskOfReads(down: seq<bool>, j: nat)
    requires j / CharBit < |MaskOf(down)|
    ensures MaskBit(MaskOf(down), j) == (j < |down| && down[j])
  {
    var n := |down|;
    var prev := down[..n - 1];
    var w := Widen(MaskOf(prev), (n + CharBit - 1) / CharBit);
    assert MaskBit(w, j) == (j < n - 1 && down[j]) by {
      if j / CharBit < |MaskOf(prev)| {
        MaskOfReads(prev, j);
      } else {
        assert n - 1 <= j;
      }
    }
    if down[n - 1] {
      SetMaskBitReads(w, n - 1, j);
    }
  }
}
