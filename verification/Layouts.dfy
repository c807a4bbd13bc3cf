/** Layouts: what gets written, field by field, and where a file has it. */
module Layouts {
  import opened Words
  import opened LittleEndian

  type Str = seq<Byte>

  datatype Layout = Nothing | Num(n: nat, width: nat) | Raw(bytes: Str) | Then(first: Layout, rest: Layout)

  function Size(l: Layout): nat {
    match l
    case Nothing => 0
    case Num(_, width) => width
    case Raw(bytes) => |bytes|
    case Then(first, rest) => Size(first) + Size(rest)
  }

  function Flat(l: Layout): (b: Str)
    ensures |b| == Size(l)
  {
    match l
    case Nothing => []
    case Num(n, width) => Le(n, width)
    case Raw(bytes) => bytes
    case Then(first, rest) => Flat(first) + Flat(rest)
  }

  /** Every number fits its field (struct.pack refuses one that does not). */
  predicate Fits(l: Layout) {
    match l
    case Nothing => true
    case Num(n, width) => n < Limit(width)
    case Raw(_) => true
    case Then(first, rest) => Fits(first) && Fits(rest)
  }

  /** `file` has the fields of `l` at `pos`. */
  ghost predicate At(file: seq<Byte>, pos: nat, l: Layout)
    decreases l
  {
    match l
    case Nothing => pos <= |file|
    case Num(n, width) => pos + width <= |file| && LeAt(file, pos, width) == n
    case Raw(bytes) => Holds(file, pos, bytes)
    case Then(first, rest) => At(file, pos, first) && At(file, pos + Size(first), rest)
  }

  lemma HoldsParts(file: seq<Byte>, pos: nat, a: Str, b: Str)
    requires Holds(file, pos, a + b)
    ensures Holds(file, pos, a) && Holds(file, pos + |a|, b)
  {
    var both := a + b;
    forall i | 0 <= i < |a| ensures file[pos + i] == a[i] {
      assert both[i] == a[i];
    }
    forall i | 0 <= i < |b| ensures file[pos + |a| + i] == b[i] {
      assert both[|a| + i] == b[i];
    }
  }

  lemma {:induction false} FlatIsAt(file: seq<Byte>, pos: nat, l: Layout)
    requires Holds(file, pos, Flat(l)) && Fits(l)
    ensures At(file, pos, l)
    decreases l
  {
    match l
    case Nothing =>
    case Num(n, width) => LeRoundTrip(file, pos, n, width);
    case Raw(_) =>
    case Then(first, rest) =>
      HoldsParts(file, pos, Flat(first), Flat(rest));
      FlatIsAt(file, pos, first);
      FlatIsAt(file, pos + Size(first), rest);
  }

  lemma {:induction false} AtInside(file: seq<Byte>, pos: nat, l: Layout)
    requires At(file, pos, l)
    ensures pos + Size(l) <= |file|
    decreases l
  {
    if l.Then? { AtInside(file, pos + Size(l.first), l.rest); }
  }

  lemma StartsWith(l: Layout, tail: seq<Byte>)
    requires Fits(l)
    ensures At(Flat(l) + tail, 0, l)
  {
    var file := Flat(l) + tail;
    assert forall i :: 0 <= i < Size(l) ==> file[i] == Flat(l)[i];
    FlatIsAt(file, 0, l);
  }

  /** Two numbers packed together. */
  lemma PairShape(a: nat, aWidth: nat, b: nat, bWidth: nat)
    ensures var pair := Then(Num(a, aWidth), Num(b, bWidth));
            Size(pair) == aWidth + bWidth && (Fits(pair) <==> a < Limit(aWidth) && b < Limit(bWidth))
  {
  }

  /** Two strings one after the other. */
  lemma RawShape(a: Str, b: Str)
    ensures var pair := Then(Raw(a), Raw(b)); Size(pair) == |a| + |b| && Fits(pair)
  {
    assert Size(Raw(a)) == |a| && Size(Raw(b)) == |b| && Fits(Raw(a)) && Fits(Raw(b));
  }
}
