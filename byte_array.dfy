/**
 The general purpose byte array `ByteArray_t`: a `data` pointer and a
 `len` count, and the macros that initialise, release, advance and print it.

 The pointer is modelled as an offset into `mem`, the allocation it points
 into; `Null` stands for `NULL`. `View` is the value of the two fields, and
 the functions over it specify what each macro does to them.
 */
module ByteArrays {
  import opened StdInt
  import HexDump

  /** A `uint8_t *`: `NULL`, or a position inside the allocation. */
  datatype Ptr = Null | At(offset: nat)

  /** The value of a `ByteArray_t`: its `data` and `len` fields. */
  datatype View = View(data: Ptr, len: nat)

  /** `v` shows `v.len` bytes that all lie inside `mem`; a `NULL` view shows none. */
  predicate WellFormed(mem: seq<uint8>, v: View) {
    match v.data
    case Null => v.len == 0
    case At(o) => o + v.len <= |mem|
  }

  /** The bytes `data[0] .. data[len - 1]`. */
  function Bytes(mem: seq<uint8>, v: View): (r: seq<uint8>)
    requires WellFormed(mem, v)
    ensures |r| == v.len
  {
    match v.data
    case Null => []
    case At(o) => mem[o..o + v.len]
  }

  /** `data + len`, one past the last byte shown (`NULL + 0` for the empty null view). */
  function End(v: View): Ptr {
    match v.data
    case Null => Null
    case At(o) => At(o + v.len)
  }

  /** `BYTE_ARRAY_INITIALIZER`, `{NULL, 0}`: the empty view, well formed over any memory. */
  function Initializer(): (r: View)
    ensures forall mem :: WellFormed(mem, r) && Bytes(mem, r) == []
  {
    View(Null, 0)
  }

  /**
   What the caller of `INC_BYTE_ARRAY` must guarantee: `len -= size` must
   not wrap around (`len` is a `size_t`), and a `NULL` pointer may only be
   advanced by nothing.
   */
  predicate CanAdvance(v: View, size: nat)
    ensures forall mem :: WellFormed(mem, v) ==> (CanAdvance(v, size) <==> size <= v.len)
  {
    size <= v.len && (v.data.At? || size == 0)
  }

  /** The fields after `data += size; len -= size;`. */
  function Advanced(v: View, size: nat): (r: View)
    requires CanAdvance(v, size)
    ensures End(r) == End(v)
    ensures r.len + size == v.len
  {
    match v.data
    case Null => View(Null, v.len - size)
    case At(o) => View(At(o + size), v.len - size)
  }

  /** Byte `i` of the view is `data[i]`. */
  lemma ByteAt(mem: seq<uint8>, v: View, i: nat)
    requires WellFormed(mem, v) && i < v.len
    ensures v.data.At? && v.data.offset + i < |mem|
    ensures Bytes(mem, v)[i] == mem[v.data.offset + i]
  {
  }

  /** Advancing keeps the view well formed and drops exactly its first `size` bytes. */
  lemma AdvanceDropsPrefix(mem: seq<uint8>, v: View, size: nat)
    requires WellFormed(mem, v) && size <= v.len
    ensures CanAdvance(v, size)
    ensures WellFormed(mem, Advanced(v, size))
    ensures Bytes(mem, Advanced(v, size)) == Bytes(mem, v)[size..]
  {
  }

  /** Advancing by zero changes nothing. */
  lemma AdvanceByZero(v: View)
    ensures Advanced(v, 0) == v
  {
  }

  /** Advancing by the whole length leaves an empty view that ends where the old one did. */
  lemma AdvanceByLength(mem: seq<uint8>, v: View)
    requires WellFormed(mem, v)
    ensures CanAdvance(v, v.len)
    ensures Advanced(v, v.len).len == 0
    ensures Advanced(v, v.len).data == End(v)
    ensures Bytes(mem, Advanced(v, v.len)) == []
  {
  }

  /** Advancing by `a` and then by `b` is advancing once by `a + b`. */
  lemma AdvanceTwice(v: View, a: nat, b: nat)
    requires CanAdvance(v, a + b)
    ensures CanAdvance(v, a) && CanAdvance(Advanced(v, a), b)
    ensures Advanced(Advanced(v, a), b) == Advanced(v, a + b)
  {
  }

  /** A `ByteArray_t` object whose fields the macros assign in place. */
  class ByteArray {
    /** The allocation that `data` points into. */
    var mem: seq<uint8>
    var data: Ptr
    var len: nat

    function Value(): View
      reads this
    {
      View(data, len)
    }

    ghost predicate Valid()
      reads this
    {
      WellFormed(mem, Value())
    }

    /** The bytes the array shows. */
    function Contents(): seq<uint8>
      reads this
      requires Valid()
    {
      Bytes(mem, Value())
    }

    /** `ByteArray_t a = BYTE_ARRAY_INITIALIZER;` */
    constructor ()
      ensures Valid() && Value() == Initializer() && mem == []
      ensures Contents() == []
    {
      mem := [];
      data := Null;
      len := 0;
    }

    /** `ByteArray_t a = {p, n};` where `p` points at `offset` in the allocation `buffer`. */
    constructor Over(buffer: seq<uint8>, offset: nat, n: nat)
      requires offset + n <= |buffer|
      ensures Valid() && mem == buffer && Value() == View(At(offset), n)
      ensures Contents() == buffer[offset..offset + n]
    {
      mem := buffer;
      data := At(offset);
      len := n;
    }

    /** `INIT_BYTE_ARRAY(a)`: the fields are reset; whatever they pointed to is not released. */
    method Init()
      modifies this`data, this`len
      ensures Valid() && Value() == Initializer()
      ensures Contents() == []
    {
      data := Null;
      len := 0;
    }

    /**
     `DEINIT_BYTE_ARRAY(a)`: the allocation is released and the fields are
     reset. `OICFree` accepts `NULL` or the start of an allocation.
     */
    method Deinit()
      requires data.Null? || data.offset == 0
      modifies this
      ensures Valid() && Value() == Initializer() && mem == []
      ensures Contents() == []
    {
      mem := [];
      data := Null;
      len := 0;
    }

    /** `INC_BYTE_ARRAY(a, size)`: consume the first `size` bytes in place. */
    method Inc(size: nat)
      requires Valid() && size <= len
      modifies this`data, this`len
      ensures Valid() && Value() == Advanced(old(Value()), size)
      ensures End(Value()) == End(old(Value()))
      ensures Contents() == old(Contents())[size..]
    {
      AdvanceDropsPrefix(mem, Value(), size);
      data := match data case Null => Null case At(o) => At(o + size);
      len := len - size;
    }

    /** `PRINT_BYTE_ARRAY(msg, a)`: the text it writes to standard output. */
    method Print(msg: string) returns (out: string)
      requires Valid()
      ensures out == HexDump.Padded(msg) + HexDump.Dump(Contents())
    {
      // The macro rereads `data` and `len` on every iteration; the array argument is taken
      // as a side-effect-free value, so they are read once here.
      var m, v := mem, Value();
      ghost var bytes := Bytes(m, v);
      var head := HexDump.Padded(msg);
      out := head;
      var i: nat := 0;
      while i < v.len
        invariant i <= v.len
        invariant out == head + HexDump.Cells(bytes, i)
      {
        ByteAt(m, v, i);
        ghost var before := out;
        if i != 0 && i % HexDump.BytesPerLine == 0 {
          out := out + "\n";
        }
        ghost var mid := out;
        out := out + HexDump.Hex2(m[v.data.offset + i]) + " ";
        HexDump.CellsStep(head, bytes, i, before, mid, out);
        i := i + 1;
      }
      ghost var before := out;
      out := out + "\n";
      HexDump.DumpComplete(head, bytes, before, out);
    }
  }

  /** `INC_BYTE_ARRAY_PTR(p, size)`: the same advance through a pointer; only `data` and `len` change. */
  method IncPtr(p: ByteArray, size: nat)
    requires p.Valid() && size <= p.len
    modifies p`data, p`len
    ensures p.Valid() && p.Value() == Advanced(old(p.Value()), size)
    ensures End(p.Value()) == End(old(p.Value()))
    ensures p.Contents() == old(p.Contents())[size..]
  {
    AdvanceDropsPrefix(p.mem, p.Value(), size);
    p.data := match p.data case Null => Null case At(o) => At(o + size);
    p.len := p.len - size;
  }
}
