/**
 * The fixed-layout codec: which Go values may be used as their own encoding
 * (the direct-memory view), the native packed encoding of `encoding/binary`,
 * and decoding into a destination's memory.
 *
 * A value is described by its Layout (its Go type) and the bytes of its
 * memory. The packed encoding visits the integer leaves of the layout in
 * declaration order; the in-memory image places them at Go's aligned
 * offsets (amd64 sizes and alignments), with padding between them. Both
 * views are derived from one flattening of the layout into leaves.
 */
module Sysenc {

  newtype byte = b: int | 0 <= b < 256

  datatype Option<T> = None | Some(value: T)

  datatype IntKind = U8 | I8 | U16 | I16 | U32 | I32 | U64 | I64

  function IntSize(k: IntKind): nat
  {
    match k
    case U8 => 1
    case I8 => 1
    case U16 => 2
    case I16 => 2
    case U32 => 4
    case I32 => 4
    case U64 => 8
    case I64 => 8
  }

  /** A struct field is exported (upper-case name), unexported, or blank (`_`). */
  datatype Visibility = Exported | Unexported | Blank

  /** A Go type: fixed-size integers, arrays, slices, pointers and structs. */
  datatype Layout =
    | Int(kind: IntKind)
    | Array(elem: Layout, len: nat)
    | Slice(elem: Layout)
    | Pointer(elem: Layout)
    | Struct(fields: Fields)

  /** The fields of a struct, in declaration order. */
  datatype Fields = Nil | Cons(vis: Visibility, ty: Layout, rest: Fields)

  /* ---------------------------------------------------------------------
   * Sizes
   * ------------------------------------------------------------------- */

  function Max(a: nat, b: nat): nat
  {
    if a < b then b else a
  }

  /** `n` times `m`, as `n` repeated additions (keeps the arithmetic linear). */
  function Times(n: nat, m: nat): nat
  {
    if n == 0 then 0 else m + Times(n - 1, m)
  }

  /** The smallest multiple of `a` that is at least `x`. */
  function AlignUp(x: nat, a: nat): (r: nat)
    decreases x
  {
    if x == 0 || a == 0 then x else if x <= a then a else a + AlignUp(x - a, a)
  }

  lemma {:induction false} AlignUpBounds(x: nat, a: nat)
    ensures x <= AlignUp(x, a)
    ensures a >= 1 ==> AlignUp(x, a) < x + a
    decreases x
  {
    if a >= 1 && x > a {
      AlignUpBounds(x - a, a);
    }
  }

  /** Go's alignment of a type on amd64. */
  function Align(l: Layout): (a: nat)
  {
    match l
    case Int(k) => IntSize(k)
    case Array(e, _) => Align(e)
    case Slice(_) => 8
    case Pointer(_) => 8
    case Struct(fs) => FieldsAlign(fs)
  }

  /** A struct is aligned like its most aligned field, and at least to 1. */
  function FieldsAlign(fs: Fields): (a: nat)
  {
    match fs
    case Nil => 1
    case Cons(_, t, rest) => Max(Align(t), FieldsAlign(rest))
  }

  /** Go's in-memory size of a type on amd64 (`unsafe.Sizeof`). */
  function MemSize(l: Layout): nat
  {
    match l
    case Int(k) => IntSize(k)
    case Array(e, n) => Times(n, MemSize(e))
    case Slice(_) => 24
    case Pointer(_) => 8
    case Struct(fs) => AlignUp(FieldsEnd(fs, 0), FieldsAlign(fs))
  }

  /** Where the last of `fs` ends when the first is laid out at or after `pos`. */
  function FieldsEnd(fs: Fields, pos: nat): nat
  {
    match fs
    case Nil => pos
    case Cons(_, t, rest) => FieldsEnd(rest, AlignUp(pos, Align(t)) + MemSize(t))
  }

  /**
   * The size of the packed encoding (`binary.Size` of a type), or -1 when
   * the type has none: the sum of the field sizes, blank and unexported
   * fields included, with no padding. Pointers and slices inside a value
   * have no fixed size.
   */
  function PackedSize(l: Layout): int
  {
    match l
    case Int(k) => IntSize(k)
    case Array(e, n) => var s := PackedSize(e); if s >= 0 then Times(n, s) else -1
    case Slice(_) => -1
    case Pointer(_) => -1
    case Struct(fs) => PackedFields(fs)
  }

  function PackedFields(fs: Fields): int
  {
    match fs
    case Nil => 0
    case Cons(_, t, rest) =>
      var a := PackedSize(t);
      var b := PackedFields(rest);
      if a >= 0 && b >= 0 then a + b else -1
  }

  predicate Encodable(l: Layout)
  {
    PackedSize(l) >= 0
  }

  /** A named field that is not exported, anywhere inside the type; blank fields do not count. */
  predicate HasUnexported(l: Layout)
  {
    match l
    case Int(_) => false
    case Array(e, _) => HasUnexported(e)
    case Slice(e) => HasUnexported(e)
    case Pointer(e) => HasUnexported(e)
    case Struct(fs) => FieldsUnexported(fs)
  }

  predicate FieldsUnexported(fs: Fields)
  {
    match fs
    case Nil => false
    case Cons(v, t, rest) =>
      if v == Blank then FieldsUnexported(rest)
      else v == Unexported || HasUnexported(t) || FieldsUnexported(rest)
  }

  /**
   * Decoding into `l` sets some integer: blank fields are skipped and an
   * empty array holds nothing to set; slices and pointers have no packed
   * size, so decoding never reaches inside them.
   */
  predicate Writes(l: Layout)
  {
    match l
    case Int(_) => true
    case Array(e, n) => n > 0 && Writes(e)
    case Slice(_) => false
    case Pointer(_) => false
    case Struct(fs) => FieldsWrite(fs)
  }

  predicate FieldsWrite(fs: Fields)
  {
    match fs
    case Nil => false
    case Cons(v, t, rest) => (v != Blank && Writes(t)) || FieldsWrite(rest)
  }

  /** Data whose decoding sets an integer has bytes to decode. */
  lemma {:induction false} WritesSized(l: Layout)
    requires Writes(l) && Encodable(l)
    ensures PackedSize(l) > 0
  {
    match l
    case Array(e, n) =>
      WritesSized(e);
    case Struct(fs) =>
      FieldsWriteSized(fs);
    case Int(_) =>
  }

  lemma {:induction false} FieldsWriteSized(fs: Fields)
    requires FieldsWrite(fs) && PackedFields(fs) >= 0
    ensures PackedFields(fs) > 0
  {
    match fs
    case Cons(v, t, rest) =>
      if v != Blank && Writes(t) {
        WritesSized(t);
      } else {
        FieldsWriteSized(rest);
      }
  }

  /**
   * Decoding into `l` has to set a named unexported field: an unexported
   * field whose decoding sets some integer, or one nested inside a field.
   */
  predicate SetsUnexported(l: Layout)
  {
    match l
    case Int(_) => false
    case Array(e, n) => n > 0 && SetsUnexported(e)
    case Slice(_) => false
    case Pointer(_) => false
    case Struct(fs) => FieldsSetUnexported(fs)
  }

  predicate FieldsSetUnexported(fs: Fields)
  {
    match fs
    case Nil => false
    case Cons(v, t, rest) =>
      if v == Blank then FieldsSetUnexported(rest)
      else (v == Unexported && Writes(t)) || SetsUnexported(t) || FieldsSetUnexported(rest)
  }

  /** A type whose decoding sets an unexported field has one, and has bytes to decode. */
  lemma {:induction false} SetsUnexportedBounds(l: Layout)
    requires SetsUnexported(l)
    ensures HasUnexported(l) && Writes(l)
    ensures Encodable(l) ==> PackedSize(l) > 0
  {
    match l
    case Array(e, n) =>
      SetsUnexportedBounds(e);
    case Struct(fs) =>
      FieldsSetUnexportedBounds(fs);
    if Encodable(l) {
      WritesSized(l);
    }
  }

  lemma {:induction false} FieldsSetUnexportedBounds(fs: Fields)
    requires FieldsSetUnexported(fs)
    ensures FieldsUnexported(fs) && FieldsWrite(fs)
  {
    match fs
    case Cons(v, t, rest) =>
      if FieldsSetUnexported(rest) {
        FieldsSetUnexportedBounds(rest);
      }
      if v != Blank && SetsUnexported(t) {
        SetsUnexportedBounds(t);
      }
  }

  /**
   * An unexported field that holds only blank fields is never set: Go
   * decodes `struct{ a struct{ _ uint32 } }` without error, but not
   * `struct{ a uint64 }`.
   */
  lemma BlankInsideUnexported()
    ensures !SetsUnexported(Struct(Cons(Unexported, Struct(Cons(Blank, Int(U32), Nil)), Nil)))
    ensures SetsUnexported(Struct(Cons(Unexported, Int(U64), Nil)))
  {
    assert !FieldsWrite(Cons(Blank, Int(U32), Nil));
  }

  /* ---------------------------------------------------------------------
   * Leaves: the layout flattened in encoding order
   * ------------------------------------------------------------------- */

  /**
   * One piece of the packed encoding: `size` bytes taken from memory offset
   * `off`, or, for a blank field, `size` zero bytes that decoding skips.
   */
  datatype Leaf = Leaf(off: nat, size: nat, blank: bool)

  /** A list of leaves. */
  datatype Leaves = Done | Then(leaf: Leaf, more: Leaves)

  function Concat(a: Leaves, b: Leaves): Leaves
  {
    if a.Done? then b else Then(a.leaf, Concat(a.more, b))
  }

  /**
   * The leaves of a value of layout `l` stored at memory offset `off`: they
   * lie inside the value's memory image, in order, and carry its packed size.
   */
  function LeavesOf(l: Layout, off: nat): (r: Leaves)
    ensures Within(r, off, off + MemSize(l))
    ensures Encodable(l) ==> SumSizes(r) == PackedSize(l)
    decreases l, 0
  {
    match l
    case Int(k) => Then(Leaf(off, IntSize(k), false), Done)
    case Slice(_) => Done
    case Pointer(_) => Done
    case Array(e, n) => ArrayLeaves(e, n, off)
    case Struct(fs) =>
      var end := FieldsEnd(fs, 0);
      AlignUpBounds(end, FieldsAlign(fs));
      var r := FieldLeaves(fs, off, 0);
      WithinUpper(r, off, off + end, off + MemSize(l));
      r
  }

  /** The leaves of `n` consecutive elements of layout `e`. */
  function ArrayLeaves(e: Layout, n: nat, off: nat): (r: Leaves)
    ensures Within(r, off, off + Times(n, MemSize(e)))
    ensures Encodable(e) ==> SumSizes(r) == Times(n, PackedSize(e))
    decreases e, n + 1
  {
    if n == 0 then Done
    else
      var h, t := LeavesOf(e, off), ArrayLeaves(e, n - 1, off + MemSize(e));
      WithinConcat(h, t, off, off + MemSize(e), off + Times(n, MemSize(e)));
      SumSizesConcat(h, t);
      Concat(h, t)
  }

  /**
   * The leaves of the fields `fs` of a struct at `off`, the first of them
   * laid out at or after struct offset `pos`; a blank field is one leaf of
   * zeros as long as its packed size.
   */
  function FieldLeaves(fs: Fields, off: nat, pos: nat): (r: Leaves)
    ensures Within(r, off + pos, off + FieldsEnd(fs, pos))
    ensures PackedFields(fs) >= 0 ==> SumSizes(r) == PackedFields(fs)
    decreases fs, 0
  {
    match fs
    case Nil => Done
    case Cons(v, t, rest) =>
      var o := AlignUp(pos, Align(t));
      AlignUpBounds(pos, Align(t));
      var h, tl := FieldHead(v, t, off + o), FieldLeaves(rest, off, o + MemSize(t));
      WithinLower(h, off + o, off + pos, off + o + MemSize(t));
      WithinConcat(h, tl, off + pos, off + o + MemSize(t), off + FieldsEnd(fs, pos));
      SumSizesConcat(h, tl);
      Concat(h, tl)
  }

  /** The leaves of one field stored at `at`. */
  function FieldHead(v: Visibility, t: Layout, at: nat): (r: Leaves)
    ensures Within(r, at, at + MemSize(t))
    ensures Encodable(t) ==> SumSizes(r) == PackedSize(t)
    decreases t, 1
  {
    var r := LeavesOf(t, at);
    if v == Blank then
      WithinSum(r, at, at + MemSize(t));
      Then(Leaf(at, BlankSize(t), true), Done)
    else r
  }

  /** The number of zero bytes a blank field of type `t` encodes to. */
  function BlankSize(t: Layout): nat
  {
    if PackedSize(t) >= 0 then PackedSize(t) else 0
  }

  function SumSizes(ls: Leaves): nat
  {
    if ls.Done? then 0 else ls.leaf.size + SumSizes(ls.more)
  }

  predicate Within(ls: Leaves, lo: nat, hi: nat)
  {
    if ls.Done? then lo <= hi
    else lo <= ls.leaf.off && Within(ls.more, ls.leaf.off + ls.leaf.size, hi)
  }

  predicate Contiguous(ls: Leaves, lo: nat)
  {
    ls.Done? || (ls.leaf.off == lo && Contiguous(ls.more, lo + ls.leaf.size))
  }

  lemma {:induction false} SumSizesConcat(a: Leaves, b: Leaves)
    ensures SumSizes(Concat(a, b)) == SumSizes(a) + SumSizes(b)
  {
    if a.Then? {
      SumSizesConcat(a.more, b);
    }
  }

  lemma {:induction false} WithinConcat(a: Leaves, b: Leaves, lo: nat, mid: nat, hi: nat)
    requires Within(a, lo, mid) && Within(b, mid, hi)
    ensures Within(Concat(a, b), lo, hi)
  {
    if a.Done? {
      WithinLower(b, mid, lo, hi);
    } else {
      WithinConcat(a.more, b, a.leaf.off + a.leaf.size, mid, hi);
    }
  }

  lemma WithinLower(ls: Leaves, lo: nat, lo': nat, hi: nat)
    requires Within(ls, lo, hi) && lo' <= lo
    ensures Within(ls, lo', hi)
  {
  }

  lemma {:induction false} WithinUpper(ls: Leaves, lo: nat, hi: nat, hi': nat)
    requires Within(ls, lo, hi) && hi <= hi'
    ensures Within(ls, lo, hi')
  {
    if ls.Then? {
      WithinUpper(ls.more, ls.leaf.off + ls.leaf.size, hi, hi');
    }
  }

  lemma {:induction false} WithinSum(ls: Leaves, lo: nat, hi: nat)
    requires Within(ls, lo, hi)
    ensures lo + SumSizes(ls) <= hi
  {
    if ls.Then? {
      WithinSum(ls.more, ls.leaf.off + ls.leaf.size, hi);
    }
  }

  lemma {:induction false} WithinTight(ls: Leaves, lo: nat, hi: nat)
    requires Within(ls, lo, hi) && lo + SumSizes(ls) == hi
    ensures Contiguous(ls, lo)
  {
    if ls.Then? {
      WithinSum(ls.more, ls.leaf.off + ls.leaf.size, hi);
      WithinTight(ls.more, ls.leaf.off + ls.leaf.size, hi);
    }
  }

  /**
   * A type whose packed size equals its in-memory size has no padding: its
   * leaves cover its memory image without gaps, in encoding order.
   */
  lemma NoPaddingContiguous(l: Layout, off: nat)
    requires PackedSize(l) == MemSize(l)
    ensures Contiguous(LeavesOf(l, off), off)
  {
    WithinTight(LeavesOf(l, off), off, off + MemSize(l));
  }

  /** The packed encoding is never longer than the memory image. */
  lemma PackedAtMostMem(l: Layout)
    requires Encodable(l)
    ensures PackedSize(l) <= MemSize(l)
  {
    WithinSum(LeavesOf(l, 0), 0, MemSize(l));
  }

  /* ---------------------------------------------------------------------
   * Encoding and decoding along the leaves
   * ------------------------------------------------------------------- */

  /** `n` zero bytes. */
  function Zeros(n: nat): (r: seq<byte>)
    ensures |r| == n && forall i | 0 <= i < n :: r[i] == 0
  {
    seq(n, i => 0)
  }

  /** Every leaf of `ls` ends inside a memory of `n` bytes. */
  predicate InBounds(ls: Leaves, n: nat)
  {
    ls.Done? || (ls.leaf.off + ls.leaf.size <= n && InBounds(ls.more, n))
  }

  lemma {:induction false} WithinInBounds(ls: Leaves, lo: nat, hi: nat, n: nat)
    requires Within(ls, lo, hi) && hi <= n
    ensures InBounds(ls, n)
  {
    if ls.Then? {
      WithinSum(ls.more, ls.leaf.off + ls.leaf.size, hi);
      WithinInBounds(ls.more, ls.leaf.off + ls.leaf.size, hi, n);
    }
  }

  /** The bytes one leaf contributes to the packed encoding of memory `mem`. */
  function Piece(leaf: Leaf, mem: seq<byte>): seq<byte>
    requires leaf.off + leaf.size <= |mem|
  {
    if leaf.blank then Zeros(leaf.size) else mem[leaf.off..leaf.off + leaf.size]
  }

  /** The output of `binary.Write` for the leaves `ls` of memory `mem`. */
  function EncodeLeaves(ls: Leaves, mem: seq<byte>): (r: seq<byte>)
    requires InBounds(ls, |mem|)
    ensures |r| == SumSizes(ls)
  {
    if ls.Done? then [] else Piece(ls.leaf, mem) + EncodeLeaves(ls.more, mem)
  }

  /**
   * What the packed bytes `buf[b..]` read back as once decoded along `ls`:
   * the bytes themselves, except that blank fields read back as zeros.
   */
  function BlankOut(ls: Leaves, buf: seq<byte>, b: nat): (r: seq<byte>)
    requires b + SumSizes(ls) <= |buf|
    ensures |r| == SumSizes(ls)
  {
    if ls.Done? then []
    else
      var n := ls.leaf.size;
      (if ls.leaf.blank then Zeros(n) else buf[b..b + n]) + BlankOut(ls.more, buf, b + n)
  }

  /** Memory `mem` with `piece` copied in at offset `at`. */
  function Write(mem: seq<byte>, at: nat, piece: seq<byte>): (r: seq<byte>)
    requires at + |piece| <= |mem|
    ensures |r| == |mem|
  {
    mem[..at] + piece + mem[at + |piece|..]
  }

  /** After a write, the written range holds the piece. */
  lemma WriteInside(mem: seq<byte>, at: nat, piece: seq<byte>)
    requires at + |piece| <= |mem|
    ensures Write(mem, at, piece)[at..at + |piece|] == piece
  {
  }

  /** Writing changes exactly the bytes at [at, at + |piece|), to the bytes of `piece`. */
  lemma WriteAt(mem: seq<byte>, at: nat, piece: seq<byte>, i: nat)
    requires at + |piece| <= |mem| && i < |mem|
    ensures Write(mem, at, piece)[i] == if at <= i < at + |piece| then piece[i - at] else mem[i]
  {
  }

  /** A write leaves every range that does not overlap it unchanged. */
  lemma WriteOutside(mem: seq<byte>, at: nat, piece: seq<byte>, lo: nat, hi: nat)
    requires at + |piece| <= |mem| && lo <= hi <= |mem|
    requires hi <= at || at + |piece| <= lo
    ensures Write(mem, at, piece)[lo..hi] == mem[lo..hi]
  {
  }

  /**
   * `binary.Read` of the packed bytes `buf[b..]` into memory `mem` along
   * `ls`: each leaf's bytes are copied to its offset; blank fields and
   * padding are skipped and keep their old contents.
   */
  function DecodeLeaves(ls: Leaves, mem: seq<byte>, buf: seq<byte>, b: nat): (r: seq<byte>)
    requires InBounds(ls, |mem|) && b + SumSizes(ls) <= |buf|
    ensures |r| == |mem|
  {
    if ls.Done? then mem
    else DecodeLeaves(ls.more, DecodeLeaf(ls.leaf, mem, buf, b), buf, b + ls.leaf.size)
  }

  /** Decoding one leaf: its bytes of `buf[b..]` are copied to its offset, unless it is blank. */
  function DecodeLeaf(leaf: Leaf, mem: seq<byte>, buf: seq<byte>, b: nat): (r: seq<byte>)
    requires leaf.off + leaf.size <= |mem| && b + leaf.size <= |buf|
    ensures |r| == |mem|
  {
    if leaf.blank then mem else Write(mem, leaf.off, buf[b..b + leaf.size])
  }

  /** Decoding leaves that lie at or above `lo` leaves the memory below `lo` alone. */
  lemma {:induction false} DecodeFrame(ls: Leaves, mem: seq<byte>, buf: seq<byte>, b: nat, lo: nat, hi: nat, at: nat, end: nat)
    requires Within(ls, lo, hi) && InBounds(ls, |mem|) && b + SumSizes(ls) <= |buf|
    requires at <= end <= lo && end <= |mem|
    ensures DecodeLeaves(ls, mem, buf, b)[at..end] == mem[at..end]
  {
    if ls.Then? {
      var n := ls.leaf.size;
      var m := DecodeLeaf(ls.leaf, mem, buf, b);
      if !ls.leaf.blank {
        WriteOutside(mem, ls.leaf.off, buf[b..b + n], at, end);
      }
      DecodeFrame(ls.more, m, buf, b + n, ls.leaf.off + n, hi, at, end);
    }
  }

  /** After decoding, the first leaf holds its bytes of `buf`, or zeros if blank. */
  lemma DecodeHead(ls: Leaves, mem: seq<byte>, buf: seq<byte>, b: nat, lo: nat, hi: nat)
    requires ls.Then? && Within(ls, lo, hi) && InBounds(ls, |mem|) && b + SumSizes(ls) <= |buf|
    ensures Piece(ls.leaf, DecodeLeaves(ls, mem, buf, b))
      == if ls.leaf.blank then Zeros(ls.leaf.size) else buf[b..b + ls.leaf.size]
  {
    var leaf, n := ls.leaf, ls.leaf.size;
    if !leaf.blank {
      var m := Write(mem, leaf.off, buf[b..b + n]);
      DecodeFrame(ls.more, m, buf, b + n, leaf.off + n, hi, leaf.off, leaf.off + n);
      WriteInside(mem, leaf.off, buf[b..b + n]);
    }
  }

  /** Memory `mem` holds, at each non-blank leaf of `ls`, that leaf's bytes of the packed `buf[b..]`. */
  predicate Holds(ls: Leaves, mem: seq<byte>, buf: seq<byte>, b: nat)
    requires InBounds(ls, |mem|) && b + SumSizes(ls) <= |buf|
  {
    ls.Done?
    || ((!ls.leaf.blank ==> Piece(ls.leaf, mem) == buf[b..b + ls.leaf.size])
        && Holds(ls.more, mem, buf, b + ls.leaf.size))
  }

  /** Memory that holds the packed bytes encodes back to them, blank fields zeroed. */
  lemma {:induction false} HoldsEncode(ls: Leaves, mem: seq<byte>, buf: seq<byte>, b: nat)
    requires InBounds(ls, |mem|) && b + SumSizes(ls) <= |buf| && Holds(ls, mem, buf, b)
    ensures EncodeLeaves(ls, mem) == BlankOut(ls, buf, b)
  {
    if ls.Then? {
      HoldsEncode(ls.more, mem, buf, b + ls.leaf.size);
    }
  }

  /** Decoding makes the memory hold the packed bytes: the leaves do not overlap, so no write clobbers another. */
  lemma {:induction false} DecodeHolds(ls: Leaves, mem: seq<byte>, buf: seq<byte>, b: nat, lo: nat, hi: nat)
    requires Within(ls, lo, hi) && InBounds(ls, |mem|) && b + SumSizes(ls) <= |buf|
    ensures Holds(ls, DecodeLeaves(ls, mem, buf, b), buf, b)
  {
    if ls.Then? {
      var leaf, n := ls.leaf, ls.leaf.size;
      var m := DecodeLeaf(leaf, mem, buf, b);
      var decoded := DecodeLeaves(ls, mem, buf, b);
      assert decoded == DecodeLeaves(ls.more, m, buf, b + n);
      assert Within(ls.more, leaf.off + n, hi) && InBounds(ls.more, |m|);
      DecodeHolds(ls.more, m, buf, b + n, leaf.off + n, hi);
      DecodeHead(ls, mem, buf, b, lo, hi);
      assert !leaf.blank ==> Piece(leaf, decoded) == buf[b..b + n];
    }
  }

  /**
   * Encoding what was decoded gives back the packed bytes, with blank
   * fields zeroed.
   */
  lemma DecodeEncode(ls: Leaves, mem: seq<byte>, buf: seq<byte>, b: nat, lo: nat, hi: nat)
    requires Within(ls, lo, hi) && InBounds(ls, |mem|) && b + SumSizes(ls) <= |buf|
    ensures EncodeLeaves(ls, DecodeLeaves(ls, mem, buf, b)) == BlankOut(ls, buf, b)
  {
    DecodeHolds(ls, mem, buf, b, lo, hi);
    HoldsEncode(ls, DecodeLeaves(ls, mem, buf, b), buf, b);
  }

  /** Along leaves that follow each other without gaps, memory is its own packed image. */
  lemma {:induction false} ContiguousEncode(ls: Leaves, mem: seq<byte>, lo: nat)
    requires Contiguous(ls, lo) && InBounds(ls, |mem|) && lo + SumSizes(ls) <= |mem|
    ensures EncodeLeaves(ls, mem) == BlankOut(ls, mem, lo)
  {
    if ls.Then? {
      ContiguousEncode(ls.more, mem, lo + ls.leaf.size);
    }
  }

  /** The bytes under every blank leaf are zero. */
  predicate BlanksZero(ls: Leaves, mem: seq<byte>)
    requires InBounds(ls, |mem|)
  {
    ls.Done?
    || ((ls.leaf.blank ==> Piece(Leaf(ls.leaf.off, ls.leaf.size, false), mem) == Zeros(ls.leaf.size))
        && BlanksZero(ls.more, mem))
  }

  /** Without non-zero blank bytes, zeroing the blank fields changes nothing. */
  lemma {:induction false} BlankOutUnchanged(ls: Leaves, buf: seq<byte>, b: nat)
    requires Contiguous(ls, b) && InBounds(ls, |buf|) && b + SumSizes(ls) <= |buf|
    requires BlanksZero(ls, buf)
    ensures BlankOut(ls, buf, b) == buf[b..b + SumSizes(ls)]
  {
    if ls.Then? {
      var n := ls.leaf.size;
      BlankOutUnchanged(ls.more, buf, b + n);
      assert buf[b..b + SumSizes(ls)] == buf[b..b + n] + buf[b + n..b + SumSizes(ls)];
    }
  }

  /* ---------------------------------------------------------------------
   * A layout's memory: its packed image and decoding into it
   * ------------------------------------------------------------------- */

  /** The leaves of a whole value of layout `d` fit a memory image of its size. */
  lemma LeavesFit(d: Layout, mem: seq<byte>)
    requires |mem| == MemSize(d)
    ensures InBounds(LeavesOf(d, 0), |mem|)
  {
    WithinInBounds(LeavesOf(d, 0), 0, MemSize(d), |mem|);
  }

  /** The packed encoding (`binary.Write`) of memory `mem` holding a value of layout `d`. */
  function Packed(d: Layout, mem: seq<byte>): (r: seq<byte>)
    requires |mem| == MemSize(d) && Encodable(d)
    ensures |r| == PackedSize(d)
  {
    LeavesFit(d, mem);
    EncodeLeaves(LeavesOf(d, 0), mem)
  }

  /** `binary.Read` of the packed `buf` into memory `mem` holding a value of layout `d`. */
  function Unpack(d: Layout, mem: seq<byte>, buf: seq<byte>): (r: seq<byte>)
    requires |mem| == MemSize(d) && Encodable(d) && PackedSize(d) <= |buf|
    ensures |r| == |mem|
  {
    LeavesFit(d, mem);
    DecodeLeaves(LeavesOf(d, 0), mem, buf, 0)
  }

  /** The bytes of `mem` under the blank fields of a value of layout `d` are zero. */
  predicate Clean(d: Layout, mem: seq<byte>)
    requires |mem| == MemSize(d)
  {
    LeavesFit(d, mem);
    BlanksZero(LeavesOf(d, 0), mem)
  }

  /** Packing what was unpacked gives `buf` back, except that blank fields read as zeros. */
  lemma UnpackPack(d: Layout, mem: seq<byte>, buf: seq<byte>)
    requires |mem| == MemSize(d) && Encodable(d) && PackedSize(d) <= |buf|
    ensures Packed(d, Unpack(d, mem, buf)) == BlankOut(LeavesOf(d, 0), buf, 0)
  {
    LeavesFit(d, mem);
    DecodeEncode(LeavesOf(d, 0), mem, buf, 0, 0, MemSize(d));
  }

  /**
   * A layout without padding is its own packed image: with its blank bytes
   * zero, the packed encoding is the memory itself; in any case it reads
   * like the memory with the blank fields zeroed.
   */
  lemma NoPaddingPacked(d: Layout, mem: seq<byte>)
    requires |mem| == MemSize(d) && PackedSize(d) == MemSize(d)
    ensures Packed(d, mem) == BlankOut(LeavesOf(d, 0), mem, 0)
    ensures Clean(d, mem) ==> Packed(d, mem) == mem
  {
    LeavesFit(d, mem);
    NoPaddingContiguous(d, 0);
    ContiguousEncode(LeavesOf(d, 0), mem, 0);
    if Clean(d, mem) {
      BlankOutUnchanged(LeavesOf(d, 0), mem, 0);
      assert mem[0..MemSize(d)] == mem;
    }
  }

  /* ---------------------------------------------------------------------
   * Arguments: the Go values handed to Marshal and Unmarshal
   * ------------------------------------------------------------------- */

  /** A slice: its element type, its length, and whether it is nil (a nil slice is empty). */
  datatype SliceHeader = SliceHeader(elem: Layout, len: nat, isNil: bool)

  /**
   * A value passed as `any`: the nil interface, a value of a type that is
   * neither a pointer nor a slice, a pointer to such a type, a slice, or a
   * pointer to a slice. Each may be nil where Go allows it.
   */
  datatype Arg =
    | NilInterface
    | Value(l: Layout)
    | Ptr(target: Layout, ptrNil: bool)
    | Slc(s: SliceHeader)
    | PtrToSlice(ps: SliceHeader, ptrNil: bool)

  /** The layout of the memory `arg` gives access to: the value, the pointee or the slice's backing array. */
  function Data(arg: Arg): Option<Layout>
  {
    match arg
    case NilInterface => None
    case Value(l) => Some(l)
    case Ptr(t, isNil) => if isNil then None else Some(t)
    case Slc(s) => Some(Array(s.elem, s.len))
    case PtrToSlice(s, isNil) => if isNil then None else Some(Array(s.elem, s.len))
  }

  /** `mem` is the memory of `arg`'s data, and a nil slice has length zero. */
  predicate Fits(arg: Arg, mem: seq<byte>)
  {
    (arg.Slc? ==> (arg.s.isNil ==> arg.s.len == 0))
    && (arg.PtrToSlice? ==> (arg.ps.isNil ==> arg.ps.len == 0))
    && (Data(arg).Some? ==> |mem| == MemSize(Data(arg).value))
  }

  /**
   * `binary.Size`: the packed size of the data, or -1. A nil pointer has
   * no data and so no size.
   */
  function BinarySize(arg: Arg): int
  {
    match arg
    case NilInterface => -1
    case Value(l) => PackedSize(l)
    case Ptr(t, isNil) => if isNil then -1 else PackedSize(t)
    case Slc(s) => PackedSize(Array(s.elem, s.len))
    case PtrToSlice(s, isNil) => if isNil then -1 else PackedSize(Array(s.elem, s.len))
  }

  /** For a slice: its memory, if it is not nil and its elements have no padding and no unexported fields. */
  function SliceMemory(arg: Arg, s: SliceHeader, mem: seq<byte>): Option<seq<byte>>
  {
    if BinarySize(arg) != Times(s.len, MemSize(s.elem)) || HasUnexported(s.elem) || s.isNil then None
    else Some(mem)
  }

  /**
   * `unsafeBackingMemory`: the memory behind a non-nil pointer or slice
   * whose packed size equals its in-memory size (so there is no padding)
   * and whose type has no unexported fields; None otherwise.
   */
  function DirectMemory(arg: Arg, mem: seq<byte>): Option<seq<byte>>
  {
    match arg
    case NilInterface => None
    case Value(_) => None
    case Ptr(t, isNil) =>
      if isNil || BinarySize(arg) != MemSize(t) || HasUnexported(t) then None else Some(mem)
    case Slc(s) => SliceMemory(arg, s, mem)
    case PtrToSlice(s, isNil) => if isNil then None else SliceMemory(arg, s, mem)
  }

  /** A nil slice, or a pointer to one. */
  predicate NilSlice(arg: Arg)
  {
    (arg.Slc? && arg.s.isNil) || (arg.PtrToSlice? && arg.ps.isNil)
  }

  /** The bytes of `DirectMemory`, or none. */
  function View(arg: Arg, mem: seq<byte>): seq<byte>
  {
    match DirectMemory(arg, mem)
    case None => []
    case Some(m) => m
  }

  /** `binary.Write`: the packed encoding of the data, or None when there is none. */
  function BinaryWrite(arg: Arg, mem: seq<byte>): Option<seq<byte>>
    requires Fits(arg, mem)
  {
    match Data(arg)
    case None => None
    case Some(d) => if Encodable(d) then Some(Packed(d, mem)) else None
  }

  datatype MarshalError = NilValue | Unencodable | WrongSize

  datatype Marshalled = Marshalled(bytes: seq<byte>) | MarshalFailed(err: MarshalError)

  /**
   * `Marshal(data, size)`: the direct memory when it has the requested
   * size, otherwise the packed encoding, which must have that size.
   */
  function Marshal(arg: Arg, mem: seq<byte>, size: int): Marshalled
    requires Fits(arg, mem)
  {
    if arg.NilInterface? then MarshalFailed(NilValue)
    else if |View(arg, mem)| == size then Marshalled(View(arg, mem))
    else match BinaryWrite(arg, mem)
      case None => MarshalFailed(Unencodable)
      case Some(w) => if |w| != size then MarshalFailed(WrongSize) else Marshalled(w)
  }

  /**
   * Why a read fails. Go's `binary.Read` panics when it has to set an
   * unexported field; the model reports that as `UnexportedField`.
   */
  datatype UnmarshalError = InvalidType | ShortBuffer | UnexportedField | TrailingData

  /** The error a read reports, if any, and the destination's memory afterwards. */
  datatype Outcome = Outcome(err: Option<UnmarshalError>, mem: seq<byte>)

  /** Only a pointer or a slice can be unmarshalled into. */
  predicate Settable(arg: Arg)
  {
    arg.Ptr? || arg.Slc? || arg.PtrToSlice?
  }

  /**
   * `binary.Read` of `buf` into `arg`: the destination must be a non-nil
   * pointer or a slice of fixed-size data, and `buf` must hold at least its
   * packed size; the bytes beyond that are not read. Decoding then fails
   * at the first unexported field it has to set.
   */
  function BinaryRead(arg: Arg, mem: seq<byte>, buf: seq<byte>): (r: Outcome)
    requires Fits(arg, mem)
    ensures |r.mem| == |mem|
  {
    if !Settable(arg) || Data(arg).None? || !Encodable(Data(arg).value) then Outcome(Some(InvalidType), mem)
    else if |buf| < PackedSize(Data(arg).value) then Outcome(Some(ShortBuffer), mem)
    else if SetsUnexported(Data(arg).value) then Outcome(Some(UnexportedField), mem)
    else Outcome(None, Unpack(Data(arg).value, mem, buf))
  }

  /**
   * `Unmarshal(data, buf)`: a copy into the direct memory when it has
   * exactly the length of `buf` (nothing to copy when there is none and
   * `buf` is empty), otherwise `binary.Read`, which must consume all of
   * `buf`.
   */
  function UnmarshalOutcome(arg: Arg, mem: seq<byte>, buf: seq<byte>): (r: Outcome)
    requires Fits(arg, mem)
    ensures |r.mem| == |mem|
  {
    if |View(arg, mem)| == |buf| then
      Outcome(None, if DirectMemory(arg, mem).Some? then buf else mem)
    else
      var r := BinaryRead(arg, mem, buf);
      if r.err.None? && |buf| > BinarySize(arg) then Outcome(Some(TrailingData), r.mem) else r
  }

  /** `canUnmarshalInto`: the kind of the (non-nil) value is slice or pointer. */
  predicate CanUnmarshalInto(arg: Arg)
    requires !arg.NilInterface?
  {
    Settable(arg)
  }

  /** The bytes under the blank fields of `arg`'s data are zero, as in any value Go creates. */
  predicate BlanksClear(arg: Arg, mem: seq<byte>)
    requires Fits(arg, mem)
  {
    Data(arg).Some? ==> Clean(Data(arg).value, mem)
  }

  /* ---------------------------------------------------------------------
   * Properties of Marshal and Unmarshal
   * ------------------------------------------------------------------- */

  /** `binary.Size` is the packed size of the data, and `binary.Write` produces exactly that many bytes. */
  lemma BinarySizeOfData(arg: Arg, mem: seq<byte>)
    requires Fits(arg, mem)
    ensures Data(arg).Some? ==> BinarySize(arg) == PackedSize(Data(arg).value)
    ensures Data(arg).None? ==> BinarySize(arg) == -1
    ensures BinaryWrite(arg, mem).Some? <==> Data(arg).Some? && BinarySize(arg) >= 0
    ensures BinaryWrite(arg, mem).Some? ==> |BinaryWrite(arg, mem).value| == BinarySize(arg)
  {
  }

  /**
   * `unsafeBackingMemory` hands out the memory itself exactly for non-nil
   * pointers and slices whose data has no padding and no unexported fields.
   */
  lemma DirectMemoryExactly(arg: Arg, mem: seq<byte>)
    ensures DirectMemory(arg, mem).Some? <==>
      Settable(arg) && Data(arg).Some? && !NilSlice(arg)
      && PackedSize(Data(arg).value) == MemSize(Data(arg).value) && !HasUnexported(Data(arg).value)
    ensures DirectMemory(arg, mem).Some? ==> DirectMemory(arg, mem).value == mem
  {
  }

  /** The direct memory of a value is its packed encoding: the view is safe to hand to the kernel. */
  lemma DirectMemoryIsEncoding(arg: Arg, mem: seq<byte>)
    requires Fits(arg, mem) && BlanksClear(arg, mem) && DirectMemory(arg, mem).Some?
    ensures BinaryWrite(arg, mem) == DirectMemory(arg, mem)
  {
    DirectMemoryExactly(arg, mem);
    NoPaddingPacked(Data(arg).value, mem);
  }

  /**
   * Marshalling to the value's `binary.Size` succeeds whenever
   * `binary.Write` does, with the same bytes.
   */
  lemma MarshalIsEncoding(arg: Arg, mem: seq<byte>)
    requires Fits(arg, mem) && BlanksClear(arg, mem) && BinaryWrite(arg, mem).Some?
    ensures Marshal(arg, mem, BinarySize(arg)) == Marshalled(BinaryWrite(arg, mem).value)
  {
    BinarySizeOfData(arg, mem);
    if DirectMemory(arg, mem).Some? {
      DirectMemoryIsEncoding(arg, mem);
    }
  }

  /**
   * Whatever Marshal returns has the requested size and is the packed
   * encoding, except that a request for zero bytes is met with no bytes.
   */
  lemma MarshalSound(arg: Arg, mem: seq<byte>, size: int)
    requires Fits(arg, mem) && BlanksClear(arg, mem)
    ensures arg.NilInterface? ==> Marshal(arg, mem, size) == MarshalFailed(NilValue)
    ensures Marshal(arg, mem, size).Marshalled? ==>
      var b := Marshal(arg, mem, size).bytes;
      |b| == size && (BinaryWrite(arg, mem) == Some(b) || b == [])
  {
    if DirectMemory(arg, mem).Some? {
      DirectMemoryIsEncoding(arg, mem);
    }
  }

  /**
   * Only a non-nil pointer or slice of fixed-size data can be read into;
   * then a buffer shorter than its `binary.Size` is refused, and a long
   * enough one is read unless decoding has to set an unexported field.
   */
  lemma CanUnmarshalIntoReads(arg: Arg, mem: seq<byte>, buf: seq<byte>)
    requires Fits(arg, mem) && !arg.NilInterface?
    ensures !CanUnmarshalInto(arg) ==> BinaryRead(arg, mem, buf).err == Some(InvalidType)
    ensures CanUnmarshalInto(arg) && Data(arg).Some? && BinarySize(arg) >= 0 ==>
      BinaryRead(arg, mem, buf).err ==
        if |buf| < BinarySize(arg) then Some(ShortBuffer)
        else if SetsUnexported(Data(arg).value) then Some(UnexportedField)
        else None
  {
  }

  /** A read succeeds only into fixed-size data that the buffer covers, and then it is Unpack. */
  lemma ReadSucceeded(arg: Arg, mem: seq<byte>, buf: seq<byte>)
    requires Fits(arg, mem) && BinaryRead(arg, mem, buf).err.None?
    ensures Data(arg).Some? && Encodable(Data(arg).value) && PackedSize(Data(arg).value) <= |buf|
    ensures BinaryRead(arg, mem, buf).mem == Unpack(Data(arg).value, mem, buf)
  {
  }

  /** What a successful `binary.Read` leaves, `binary.Write` gives back: the bytes it read, blank fields zeroed. */
  lemma ReadIsPacked(arg: Arg, mem: seq<byte>, buf: seq<byte>)
    requires Fits(arg, mem) && BinaryRead(arg, mem, buf).err.None?
    ensures Data(arg).Some? && Encodable(Data(arg).value) && BinarySize(arg) <= |buf|
    ensures BinaryWrite(arg, BinaryRead(arg, mem, buf).mem) == Some(BlankOut(LeavesOf(Data(arg).value, 0), buf, 0))
  {
    ReadSucceeded(arg, mem, buf);
    BinarySizeOfData(arg, mem);
    UnpackPack(Data(arg).value, mem, buf);
  }

  /**
   * After a successful Unmarshal of a non-empty buffer, the value marshals
   * back to exactly that buffer, blank fields read as zeros.
   */
  lemma UnmarshalRoundTrip(arg: Arg, mem: seq<byte>, buf: seq<byte>)
    requires Fits(arg, mem)
    ensures UnmarshalOutcome(arg, mem, buf).err.None? && |buf| > 0 ==>
      Data(arg).Some? && Encodable(Data(arg).value) && |buf| == BinarySize(arg)
      && BinaryWrite(arg, UnmarshalOutcome(arg, mem, buf).mem) == Some(BlankOut(LeavesOf(Data(arg).value, 0), buf, 0))
  {
    var r := UnmarshalOutcome(arg, mem, buf);
    if r.err.None? && |buf| > 0 {
      if |View(arg, mem)| == |buf| {
        DirectMemoryExactly(arg, mem);
        NoPaddingPacked(Data(arg).value, buf);
      } else {
        var read := BinaryRead(arg, mem, buf);
        assert read.err.None? && |buf| <= BinarySize(arg) && r.mem == read.mem;
        ReadIsPacked(arg, mem, buf);
      }
    }
  }

  /**
   * Unmarshal accepts exactly a buffer of the destination's `binary.Size`,
   * unless the direct memory has some other length that the buffer matches.
   */
  lemma UnmarshalErrors(arg: Arg, mem: seq<byte>, buf: seq<byte>)
    requires Fits(arg, mem) && |View(arg, mem)| != |buf|
    ensures !Settable(arg) ==> UnmarshalOutcome(arg, mem, buf).err == Some(InvalidType)
    ensures Settable(arg) && Data(arg).Some? && BinarySize(arg) >= 0 ==>
      UnmarshalOutcome(arg, mem, buf).err ==
        if |buf| < BinarySize(arg) then Some(ShortBuffer)
        else if SetsUnexported(Data(arg).value) then Some(UnexportedField)
        else if |buf| > BinarySize(arg) then Some(TrailingData)
        else None
    ensures UnmarshalOutcome(arg, mem, buf).err != Some(TrailingData) ==> UnmarshalOutcome(arg, mem, buf) == BinaryRead(arg, mem, buf)
  {
  }

  /**
   * The property behind TestUnmarshal: for a destination that can be read
   * into, Unmarshal of a buffer of its `binary.Size` reports what
   * `binary.Read` of the same buffer reports, which is success unless an
   * unexported field has to be set, and leaves a value whose `binary.Write`
   * image is the one `binary.Read` leaves.
   */
  lemma UnmarshalAgreesWithRead(arg: Arg, mem: seq<byte>, buf: seq<byte>)
    requires Fits(arg, mem) && Settable(arg) && Data(arg).Some? && Encodable(Data(arg).value)
    requires |buf| == BinarySize(arg)
    ensures BinaryRead(arg, mem, buf).err.None? <==> !SetsUnexported(Data(arg).value)
    ensures UnmarshalOutcome(arg, mem, buf).err == BinaryRead(arg, mem, buf).err
    ensures BinaryWrite(arg, UnmarshalOutcome(arg, mem, buf).mem) == BinaryWrite(arg, BinaryRead(arg, mem, buf).mem)
  {
    var d := Data(arg).value;
    if SetsUnexported(d) {
      SetsUnexportedBounds(d);
      DirectMemoryExactly(arg, mem);
      assert UnmarshalOutcome(arg, mem, buf) == BinaryRead(arg, mem, buf);
      return;
    }
    BinarySizeOfData(arg, mem);
    assert BinaryRead(arg, mem, buf).err.None?;
    UnmarshalRoundTrip(arg, mem, buf);
    ReadIsPacked(arg, mem, buf);
    if |buf| == 0 {
      assert |Packed(d, UnmarshalOutcome(arg, mem, buf).mem)| == 0;
      assert |Packed(d, BinaryRead(arg, mem, buf).mem)| == 0;
    }
  }

  /**
   * Unmarshal into direct memory copies the whole buffer, blank fields
   * included, and marshalling the value back hands out that memory: the
   * buffer comes back unchanged.
   */
  lemma DirectRoundTrip(arg: Arg, mem: seq<byte>, buf: seq<byte>)
    requires Fits(arg, mem) && DirectMemory(arg, mem).Some? && |buf| == |mem|
    ensures UnmarshalOutcome(arg, mem, buf) == Outcome(None, buf)
    ensures Fits(arg, buf) && Marshal(arg, buf, |buf|) == Marshalled(buf)
  {
    DirectMemoryExactly(arg, mem);
    DirectMemoryExactly(arg, buf);
  }

  /** `explicitPad` is one blank leaf of four bytes. */
  lemma ExplicitPadLeaves()
    ensures MemSize(ExplicitPad()) == 4 && PackedSize(ExplicitPad()) == 4
    ensures LeavesOf(ExplicitPad(), 0) == Then(Leaf(0, 4, true), Done)
  {
    StrucSizes();
  }

  /** Whatever an `explicitPad` holds, it encodes as four zeros, and its blanks are clear only when it holds zeros. */
  lemma ExplicitPadBytes(mem: seq<byte>)
    requires |mem| == 4
    ensures MemSize(ExplicitPad()) == 4
    ensures Packed(ExplicitPad(), mem) == Zeros(4)
    ensures Clean(ExplicitPad(), mem) <==> mem == Zeros(4)
  {
    ExplicitPadLeaves();
    var ls := LeavesOf(ExplicitPad(), 0);
    assert Piece(Leaf(0, 4, false), mem) == mem[0..4] == mem;
    assert Clean(ExplicitPad(), mem) == BlanksZero(ls, mem);
    assert BlanksZero(ls, mem) <==> mem == Zeros(4);
  }

  /**
   * The direct copy does not clear blank fields: after unmarshalling the
   * bytes 0, 1, 2, 3 into an `explicitPad`, its blank bytes are not zero,
   * and it marshals to those bytes where `binary.Write` writes four zeros.
   */
  lemma UnmarshalDirtiesBlanks()
    ensures MemSize(ExplicitPad()) == 4
    ensures var arg, buf := Ptr(ExplicitPad(), false), Ramp(4);
      && UnmarshalOutcome(arg, Zeros(4), buf) == Outcome(None, buf)
      && !BlanksClear(arg, buf)
      && Marshal(arg, buf, 4) == Marshalled(buf)
      && BinaryWrite(arg, buf) == Some(Zeros(4))
  {
    var arg, buf := Ptr(ExplicitPad(), false), Ramp(4);
    ExplicitPadBytes(buf);
    assert buf[1] != Zeros(4)[1];
    assert !HasUnexported(ExplicitPad());
    DirectMemoryExactly(arg, Zeros(4));
    DirectRoundTrip(arg, Zeros(4), buf);
  }

  /* ---------------------------------------------------------------------
   * Reading into a destination's memory in place
   * ------------------------------------------------------------------- */

  /** Copies `buf[b..b + n]` into `mem` at offset `at`. */
  method CopyIn(mem: array<byte>, at: nat, buf: seq<byte>, b: nat, n: nat)
    requires at + n <= mem.Length && b + n <= |buf|
    modifies mem
    ensures mem[..] == Write(old(mem[..]), at, buf[b..b + n])
  {
    for k := 0 to n
      invariant forall i | 0 <= i < mem.Length ::
        mem[i] == if at <= i < at + k then buf[b + i - at] else old(mem[i])
    {
      mem[at + k] := buf[b + k];
    }
    forall i | 0 <= i < mem.Length
      ensures mem[..][i] == Write(old(mem[..]), at, buf[b..b + n])[i]
    {
      WriteAt(old(mem[..]), at, buf[b..b + n], i);
    }
  }

  /** Decodes one leaf of the packed `buf` into `mem`. */
  method DecodeLeafInto(leaf: Leaf, mem: array<byte>, buf: seq<byte>, b: nat)
    requires leaf.off + leaf.size <= mem.Length && b + leaf.size <= |buf|
    modifies mem
    ensures mem[..] == DecodeLeaf(leaf, old(mem[..]), buf, b)
  {
    if !leaf.blank {
      CopyIn(mem, leaf.off, buf, b, leaf.size);
    }
  }

  /** Decodes the packed `buf` into `mem` leaf by leaf, skipping blank fields and padding. */
  method DecodeInto(ls: Leaves, mem: array<byte>, buf: seq<byte>)
    requires InBounds(ls, mem.Length) && SumSizes(ls) <= |buf|
    modifies mem
    ensures mem[..] == DecodeLeaves(ls, old(mem[..]), buf, 0)
  {
    var cur: Leaves, b: nat := ls, 0;
    while cur.Then?
      invariant InBounds(cur, mem.Length) && b + SumSizes(cur) <= |buf|
      invariant DecodeLeaves(cur, mem[..], buf, b) == DecodeLeaves(ls, old(mem[..]), buf, 0)
      decreases cur
    {
      var leaf := cur.leaf;
      DecodeLeafInto(leaf, mem, buf, b);
      b, cur := b + leaf.size, cur.more;
    }
  }

  /** `binary.Read` of `buf` into the memory of `arg`. */
  method Read(arg: Arg, mem: array<byte>, buf: seq<byte>) returns (err: Option<UnmarshalError>)
    requires Fits(arg, mem[..])
    modifies mem
    ensures Outcome(err, mem[..]) == BinaryRead(arg, old(mem[..]), buf)
  {
    if !Settable(arg) || Data(arg).None? || !Encodable(Data(arg).value) {
      return Some(InvalidType);
    }
    var d := Data(arg).value;
    if |buf| < PackedSize(d) {
      return Some(ShortBuffer);
    }
    if SetsUnexported(d) {
      return Some(UnexportedField);
    }
    LeavesFit(d, mem[..]);
    DecodeInto(LeavesOf(d, 0), mem, buf);
    return None;
  }

  /** `Unmarshal(data, buf)`, writing into the memory of `arg`. */
  method Unmarshal(arg: Arg, mem: array<byte>, buf: seq<byte>) returns (err: Option<UnmarshalError>)
    requires Fits(arg, mem[..])
    modifies mem
    ensures Outcome(err, mem[..]) == UnmarshalOutcome(arg, old(mem[..]), buf)
  {
    var direct := DirectMemory(arg, mem[..]);
    if |View(arg, mem[..])| == |buf| {
      if direct.Some? {
        CopyIn(mem, 0, buf, 0, |buf|);
        assert buf[0..|buf|] == buf;
      }
      return None;
    }
    err := Read(arg, mem, buf);
    if err.None? && |buf| > BinarySize(arg) {
      err := Some(TrailingData);
    }
  }

  /** The bytes 0, 1, 2, ... wrapping around at 256, as `byte(i)` truncates. */
  function Ramp(n: nat): (r: seq<byte>)
    ensures |r| == n
  {
    seq(n, i => (i % 256) as byte)
  }

  /**
   * `randomiseValue`: fills a buffer of the value's `binary.Size` with
   * byte(i) at index i and reads it into the value. None stands for the
   * test failing: no size, or a read error.
   */
  method RandomiseValue(arg: Arg, mem: array<byte>) returns (r: Option<seq<byte>>)
    requires Fits(arg, mem[..])
    modifies mem
    ensures BinarySize(arg) < 0 ==> r.None? && mem[..] == old(mem[..])
    ensures BinarySize(arg) >= 0 ==>
      var o := BinaryRead(arg, old(mem[..]), Ramp(BinarySize(arg)));
      mem[..] == o.mem && r == (if o.err.None? then Some(Ramp(BinarySize(arg))) else None)
  {
    var size := BinarySize(arg);
    if size < 0 {
      return None;
    }
    var buf := new byte[size];
    for i := 0 to size
      invariant buf[..i] == Ramp(i)
      invariant mem[..] == old(mem[..])
    {
      buf[i] := (i % 256) as byte;
      assert buf[..i + 1] == buf[..i] + [buf[i]];
    }
    var filled := buf[..];
    assert filled == buf[..size] == Ramp(size);
    var err := Read(arg, mem, filled);
    if err.Some? {
      return None;
    }
    return Some(filled);
  }

  /* ---------------------------------------------------------------------
   * The values the tests use
   * ------------------------------------------------------------------- */

  /** `struc`: an exported uint64 then an exported uint32 (packed 12 bytes, 16 in memory). */
  function Struc(): Layout
  {
    Struct(Cons(Exported, Int(U64), Cons(Exported, Int(U32), Nil)))
  }

  /** `explicitPad`: a single blank uint32 field. */
  function ExplicitPad(): Layout
  {
    Struct(Cons(Blank, Int(U32), Nil))
  }

  /** The values of `testcases`: `new(T)` is a pointer, `make([]T, n)` a slice, the rest plain values. */
  predicate TestCase(arg: Arg)
  {
    || arg == Ptr(Array(Int(U64), 1), false)
    || arg == Ptr(Int(I16), false) || arg == Ptr(Int(U16), false)
    || arg == Ptr(Int(I32), false) || arg == Ptr(Int(U32), false)
    || arg == Ptr(Int(I64), false) || arg == Ptr(Int(U64), false)
    || arg == Slc(SliceHeader(Int(U8), 9, false))
    || arg == Ptr(ExplicitPad(), false)
    || arg == Slc(SliceHeader(ExplicitPad(), 0, false)) || arg == Slc(SliceHeader(ExplicitPad(), 1, false))
    || arg == Slc(SliceHeader(ExplicitPad(), 2, false))
    || arg == Ptr(Struc(), false)
    || arg == Slc(SliceHeader(Struc(), 0, false)) || arg == Slc(SliceHeader(Struc(), 1, false))
    || arg == Slc(SliceHeader(Struc(), 2, false))
    || arg == Value(Int(I16)) || arg == Value(Int(U16))
    || arg == Value(Int(I32)) || arg == Value(Int(U32))
    || arg == Value(Int(I64)) || arg == Value(Int(U64))
    || arg == Value(Struc())
  }

  /** `struc` has four bytes of trailing padding; `explicitPad` has none. */
  lemma StrucSizes()
    ensures PackedSize(Struc()) == 12 && MemSize(Struc()) == 16
    ensures PackedSize(ExplicitPad()) == 4 && MemSize(ExplicitPad()) == 4
  {
    var tail := Cons(Exported, Int(U32), Nil);
    assert FieldsAlign(tail) == 4;
    assert FieldsAlign(Struc().fields) == 8;
    assert AlignUp(0, 8) == 0 && AlignUp(8, 4) == 8;
    assert FieldsEnd(tail, 8) == 12;
    assert FieldsEnd(Struc().fields, 0) == 12;
    assert AlignUp(12, 8) == 16;
    assert PackedFields(tail) == 4;
    assert FieldsEnd(ExplicitPad().fields, 0) == 4;
  }

  /** Every test value has fixed-size data. */
  lemma TestCasesEncodable(arg: Arg)
    requires TestCase(arg)
    ensures Data(arg).Some? && Encodable(Data(arg).value)
  {
    StrucSizes();
  }

  /** No test value has an unexported field for decoding to set. */
  lemma TestCasesExported(arg: Arg)
    requires TestCase(arg)
    ensures Data(arg).Some? && !SetsUnexported(Data(arg).value)
  {
    assert !FieldsSetUnexported(Struc().fields) && !FieldsSetUnexported(ExplicitPad().fields);
  }

  /** TestMarshal: each test value marshals to its `binary.Size` as the bytes `binary.Write` produces. */
  lemma TestMarshalCases(arg: Arg, mem: seq<byte>)
    requires TestCase(arg) && Fits(arg, mem) && BlanksClear(arg, mem)
    ensures BinaryWrite(arg, mem).Some?
    ensures Marshal(arg, mem, BinarySize(arg)) == Marshalled(BinaryWrite(arg, mem).value)
  {
    TestCasesEncodable(arg);
    BinarySizeOfData(arg, mem);
    MarshalIsEncoding(arg, mem);
  }

  /**
   * TestUnmarshal: each test value that can be unmarshalled into accepts a
   * buffer of its `binary.Size`, and ends up as `binary.Read` of that buffer
   * would leave it.
   */
  lemma TestUnmarshalCases(arg: Arg, mem: seq<byte>, buf: seq<byte>)
    requires TestCase(arg) && Fits(arg, mem) && CanUnmarshalInto(arg) && |buf| == BinarySize(arg)
    ensures BinaryRead(arg, mem, buf).err.None? && UnmarshalOutcome(arg, mem, buf).err.None?
    ensures BinaryWrite(arg, UnmarshalOutcome(arg, mem, buf).mem) == BinaryWrite(arg, BinaryRead(arg, mem, buf).mem)
  {
    TestCasesEncodable(arg);
    TestCasesExported(arg);
    UnmarshalAgreesWithRead(arg, mem, buf);
  }

  /** `struct{ A, B uint16; C uint32 }`: no padding. */
  function Abc(): Layout
  {
    Struct(Cons(Exported, Int(U16), Cons(Exported, Int(U16), Cons(Exported, Int(U32), Nil))))
  }

  /** `struct{ _ uint64 }`: explicit padding only. */
  function BlankWord(): Layout
  {
    Struct(Cons(Blank, Int(U64), Nil))
  }

  /** `struct{ B uint32; A uint64 }`: four bytes of padding between the fields. */
  function Interspersed(): Layout
  {
    Struct(Cons(Exported, Int(U32), Cons(Exported, Int(U64), Nil)))
  }

  lemma AbcSizes()
    ensures PackedSize(Abc()) == 8 && MemSize(Abc()) == 8
  {
    var c := Cons(Exported, Int(U32), Nil);
    var bc := Cons(Exported, Int(U16), c);
    assert FieldsAlign(c) == 4 && FieldsAlign(bc) == 4 && FieldsAlign(Abc().fields) == 4;
    assert AlignUp(0, 2) == 0 && AlignUp(2, 2) == 2 && AlignUp(4, 4) == 4;
    assert FieldsEnd(c, 4) == 8;
    assert FieldsEnd(bc, 2) == 8;
    assert FieldsEnd(Abc().fields, 0) == 8;
    assert AlignUp(8, 4) == 8;
    assert PackedFields(c) == 4 && PackedFields(bc) == 6;
  }

  lemma BlankWordSizes()
    ensures PackedSize(BlankWord()) == 8 && MemSize(BlankWord()) == 8
  {
    assert FieldsAlign(BlankWord().fields) == 8;
    assert AlignUp(0, 8) == 0;
    assert FieldsEnd(BlankWord().fields, 0) == 8;
    assert AlignUp(8, 8) == 8;
  }

  lemma InterspersedSizes()
    ensures PackedSize(Interspersed()) == 12 && MemSize(Interspersed()) == 16
  {
    var a := Cons(Exported, Int(U64), Nil);
    assert FieldsAlign(a) == 8 && FieldsAlign(Interspersed().fields) == 8;
    assert AlignUp(0, 4) == 0 && AlignUp(4, 8) == 8;
    assert FieldsEnd(a, 4) == 16;
    assert FieldsEnd(Interspersed().fields, 0) == 16;
    assert AlignUp(16, 8) == 16;
  }

  /** The values TestUnsafeBackingMemory expects to be their own encoding. */
  predicate BackedByMemory(arg: Arg)
  {
    || arg == Slc(SliceHeader(Int(U32), 2, false))
    || arg == PtrToSlice(SliceHeader(Int(U32), 1, false), false)
    || arg == Ptr(Array(Int(U64), 2), false)
    || arg == Ptr(Int(I64), false)
    || arg == Ptr(Abc(), false)
    || arg == Ptr(BlankWord(), false)
  }

  /** The values TestUnsafeBackingMemory expects no direct memory for. */
  predicate NotBackedByMemory(arg: Arg)
  {
    || arg == NilInterface
    || arg == Slc(SliceHeader(Int(U8), 0, true))
    || arg == Ptr(Int(U64), true)
    || arg == PtrToSlice(SliceHeader(Int(U32), 0, true), true)
    || arg == Ptr(Array(Int(U64), 2), true)
    || arg == Ptr(Struct(Cons(Unexported, Int(U64), Nil)), false)
    || arg == Ptr(Struct(Cons(Exported, Pointer(Int(U64)), Nil)), false)
    || arg == Ptr(Struc(), false)
    || arg == Ptr(Interspersed(), false)
    || arg == PtrToSlice(SliceHeader(Struc(), 1, false), false)
    || arg == Ptr(Array(Struc(), 2), false)
  }

  /** The valid cases have direct memory: slices and arrays of integers, and a pointer to an integer. */
  lemma BackingMemoryOfIntegers(mem: seq<byte>)
    ensures DirectMemory(Slc(SliceHeader(Int(U32), 2, false)), mem) == Some(mem)
    ensures DirectMemory(PtrToSlice(SliceHeader(Int(U32), 1, false), false), mem) == Some(mem)
    ensures DirectMemory(Ptr(Array(Int(U64), 2), false), mem) == Some(mem)
    ensures DirectMemory(Ptr(Int(I64), false), mem) == Some(mem)
  {
  }

  /** The valid cases have direct memory: structs without implicit padding. */
  lemma BackingMemoryOfStructs(mem: seq<byte>)
    ensures DirectMemory(Ptr(Abc(), false), mem) == Some(mem)
    ensures DirectMemory(Ptr(BlankWord(), false), mem) == Some(mem)
  {
    assert !HasUnexported(Abc()) && !HasUnexported(BlankWord());
    AbcSizes();
    BlankWordSizes();
    DirectMemoryExactly(Ptr(Abc(), false), mem);
    DirectMemoryExactly(Ptr(BlankWord(), false), mem);
  }

  /** The valid cases: the direct memory equals the output of `binary.Write`. */
  lemma BackingMemoryValid(arg: Arg, mem: seq<byte>)
    requires BackedByMemory(arg) && Fits(arg, mem) && BlanksClear(arg, mem)
    ensures DirectMemory(arg, mem) == Some(mem) == BinaryWrite(arg, mem)
  {
    BackingMemoryOfIntegers(mem);
    BackingMemoryOfStructs(mem);
    DirectMemoryIsEncoding(arg, mem);
  }

  /** Nil values have no direct memory. */
  lemma BackingMemoryOfNil(mem: seq<byte>)
    ensures DirectMemory(NilInterface, mem).None?
    ensures DirectMemory(Slc(SliceHeader(Int(U8), 0, true)), mem).None?
    ensures DirectMemory(Ptr(Int(U64), true), mem).None?
    ensures DirectMemory(PtrToSlice(SliceHeader(Int(U32), 0, true), true), mem).None?
    ensures DirectMemory(Ptr(Array(Int(U64), 2), true), mem).None?
  {
  }

  /** A struct with an unexported field, or with a pointer (which has no packed size), has no direct memory. */
  lemma BackingMemoryOfOpaque(mem: seq<byte>)
    ensures DirectMemory(Ptr(Struct(Cons(Unexported, Int(U64), Nil)), false), mem).None?
    ensures DirectMemory(Ptr(Struct(Cons(Exported, Pointer(Int(U64)), Nil)), false), mem).None?
  {
    var hidden := Struct(Cons(Unexported, Int(U64), Nil));
    var pointing := Struct(Cons(Exported, Pointer(Int(U64)), Nil));
    assert HasUnexported(hidden) && PackedSize(pointing) == -1;
    DirectMemoryExactly(Ptr(hidden, false), mem);
    DirectMemoryExactly(Ptr(pointing, false), mem);
  }

  /** Padding after a field, between fields, or between the elements of a slice or an array rules out direct memory. */
  lemma BackingMemoryOfPadded(mem: seq<byte>)
    ensures DirectMemory(Ptr(Struc(), false), mem).None?
    ensures DirectMemory(Ptr(Interspersed(), false), mem).None?
    ensures DirectMemory(PtrToSlice(SliceHeader(Struc(), 1, false), false), mem).None?
    ensures DirectMemory(Ptr(Array(Struc(), 2), false), mem).None?
  {
    StrucSizes();
    InterspersedSizes();
    assert Times(1, 12) != Times(1, 16) && Times(2, 12) != Times(2, 16);
    DirectMemoryExactly(Ptr(Struc(), false), mem);
    DirectMemoryExactly(Ptr(Interspersed(), false), mem);
    DirectMemoryExactly(PtrToSlice(SliceHeader(Struc(), 1, false), false), mem);
    DirectMemoryExactly(Ptr(Array(Struc(), 2), false), mem);
  }

  /** The invalid cases: nil values, unexported fields, pointers and padding all rule out the direct memory. */
  lemma BackingMemoryInvalid(arg: Arg, mem: seq<byte>)
    requires NotBackedByMemory(arg)
    ensures DirectMemory(arg, mem).None?
  {
    BackingMemoryOfNil(mem);
    BackingMemoryOfOpaque(mem);
    BackingMemoryOfPadded(mem);
  }
}
