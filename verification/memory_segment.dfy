/**
  `MemorySegment` of `project07-virtual-machine/src/memory_segment.rs`:
  seven maps from `i16` index to `i16` value, one per named segment. `push`
  stores a value under an index of the named segment; every name it does not
  know, `temp` and `constant` included, selects the temp map.
 */
module MemorySegment {
  import opened RustInts

  datatype SegmentName = ArgumentSeg | LocalSeg | StaticSeg | ThisSeg | ThatSeg | PointerSeg | TempSeg

  datatype Segments = Segments(
    argument: map<I16, I16>, local: map<I16, I16>, statiq: map<I16, I16>,
    thisSeg: map<I16, I16>, thatSeg: map<I16, I16>, pointer: map<I16, I16>, temp: map<I16, I16>)

  /** `MemorySegment::new` */
  function NewSegments(): (r: Segments)
    ensures forall n: SegmentName :: Get(r, n) == map[]
  {
    Segments(map[], map[], map[], map[], map[], map[], map[])
  }

  /** The map a segment name selects in `push`. */
  function Select(segment: string): (n: SegmentName)
    ensures n != TempSeg <==> segment in {"argument", "local", "static", "this", "that", "pointer"}
  {
    if segment == "argument" then ArgumentSeg
    else if segment == "local" then LocalSeg
    else if segment == "static" then StaticSeg
    else if segment == "this" then ThisSeg
    else if segment == "that" then ThatSeg
    else if segment == "pointer" then PointerSeg
    else TempSeg
  }

  function Get(m: Segments, n: SegmentName): map<I16, I16> {
    match n
    case ArgumentSeg => m.argument
    case LocalSeg => m.local
    case StaticSeg => m.statiq
    case ThisSeg => m.thisSeg
    case ThatSeg => m.thatSeg
    case PointerSeg => m.pointer
    case TempSeg => m.temp
  }

  /** The segments with the map of `n` replaced by `seg`. */
  function Set(m: Segments, n: SegmentName, seg: map<I16, I16>): (r: Segments)
    ensures forall k: SegmentName :: Get(r, k) == if k == n then seg else Get(m, k)
  {
    match n
    case ArgumentSeg => m.(argument := seg)
    case LocalSeg => m.(local := seg)
    case StaticSeg => m.(statiq := seg)
    case ThisSeg => m.(thisSeg := seg)
    case ThatSeg => m.(thatSeg := seg)
    case PointerSeg => m.(pointer := seg)
    case TempSeg => m.(temp := seg)
  }

  /** `push`: `insert(index, value)` into the selected map. */
  function Push(m: Segments, segment: string, index: I16, value: I16): (r: Segments)
    ensures Get(r, Select(segment)) == Get(m, Select(segment))[index := value]
    ensures forall n: SegmentName | n != Select(segment) :: Get(r, n) == Get(m, n)
  {
    Set(m, Select(segment), Get(m, Select(segment))[index := value])
  }

  /** A stored value is found again under its segment and index. */
  lemma PushThenGet(m: Segments, segment: string, index: I16, value: I16)
    ensures index in Get(Push(m, segment, index, value), Select(segment))
    ensures Get(Push(m, segment, index, value), Select(segment))[index] == value
  {
  }

  /** Unknown names, misspellings included, all write into temp. */
  lemma UnknownNamesHitTemp(segment: string, index: I16, value: I16, m: Segments)
    requires segment !in {"argument", "local", "static", "this", "that", "pointer"}
    ensures Push(m, segment, index, value) == m.(temp := m.temp[index := value])
  {
  }

  /** Pushes into different segments, or under different indices, commute. */
  lemma PushCommutes(m: Segments, s1: string, i1: I16, v1: I16, s2: string, i2: I16, v2: I16)
    requires Select(s1) != Select(s2) || i1 != i2
    ensures Push(Push(m, s1, i1, v1), s2, i2, v2) == Push(Push(m, s2, i2, v2), s1, i1, v1)
  {
    var n1, n2 := Select(s1), Select(s2);
    if n1 == n2 {
      var seg: map<I16, I16> := Get(m, n1);
      var a: map<I16, I16> := seg[i1 := v1];
      var b: map<I16, I16> := seg[i2 := v2];
      assert a[i2 := v2] == b[i1 := v1];
      SetTwice(m, n1, a, a[i2 := v2]);
      SetTwice(m, n1, b, b[i1 := v1]);
    } else {
      SetCommutes(m, n1, Get(m, n1)[i1 := v1], n2, Get(m, n2)[i2 := v2]);
    }
  }

  lemma SetTwice(m: Segments, n: SegmentName, x: map<I16, I16>, y: map<I16, I16>)
    ensures Set(Set(m, n, x), n, y) == Set(m, n, y)
  {
    SameMaps(Set(Set(m, n, x), n, y), Set(m, n, y));
  }

  lemma SetCommutes(m: Segments, n1: SegmentName, x1: map<I16, I16>, n2: SegmentName, x2: map<I16, I16>)
    requires n1 != n2
    ensures Set(Set(m, n1, x1), n2, x2) == Set(Set(m, n2, x2), n1, x1)
  {
    SameMaps(Set(Set(m, n1, x1), n2, x2), Set(Set(m, n2, x2), n1, x1));
  }

  /** Two segment sets with the same seven maps are equal. */
  lemma SameMaps(a: Segments, b: Segments)
    requires forall n: SegmentName :: Get(a, n) == Get(b, n)
    ensures a == b
  {
    assert Get(a, ArgumentSeg) == Get(b, ArgumentSeg) && Get(a, LocalSeg) == Get(b, LocalSeg);
    assert Get(a, StaticSeg) == Get(b, StaticSeg) && Get(a, ThisSeg) == Get(b, ThisSeg);
    assert Get(a, ThatSeg) == Get(b, ThatSeg) && Get(a, PointerSeg) == Get(b, PointerSeg);
    assert Get(a, TempSeg) == Get(b, TempSeg);
  }
}
