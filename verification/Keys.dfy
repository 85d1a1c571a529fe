/**
 Byte strings and the order Rust's `String` comparison puts on them: keys compare
 byte by byte, and a proper prefix comes first.
 */
module Keys {

  type Byte = b: int | 0 <= b < 256

  type Bytes = seq<Byte>

  type Key = seq<Byte>

  predicate Lt(a: Key, b: Key)
  {
    b != [] && (a == [] || a[0] < b[0] || (a[0] == b[0] && Lt(a[1..], b[1..])))
  }

  predicate Le(a: Key, b: Key)
  {
    a == b || Lt(a, b)
  }

  lemma {:induction false} Irreflexive(a: Key)
    ensures !Lt(a, a)
  {
    if a != [] {
      Irreflexive(a[1..]);
    }
  }

  lemma {:induction false} Transitive(a: Key, b: Key, c: Key)
    requires Lt(a, b) && Lt(b, c)
    ensures Lt(a, c)
  {
    if a != [] && a[0] == b[0] == c[0] {
      Transitive(a[1..], b[1..], c[1..]);
    }
  }

  lemma Asymmetric(a: Key, b: Key)
    ensures !(Lt(a, b) && Lt(b, a))
  {
    if Lt(a, b) && Lt(b, a) {
      Transitive(a, b, a);
      Irreflexive(a);
    }
  }

  lemma {:induction false} Total(a: Key, b: Key)
    ensures Lt(a, b) || a == b || Lt(b, a)
  {
    if a != [] && b != [] && a[0] == b[0] {
      Total(a[1..], b[1..]);
      assert a == [a[0]] + a[1..] && b == [b[0]] + b[1..];
    }
  }

  /** The order facts in quantified form: keys form a strict total order. */
  lemma StrictTotalOrder()
    ensures forall a, b {:trigger Lt(a, b)} :: Lt(a, b) ==> a != b && !Lt(b, a)
    ensures forall a, b, c {:trigger Lt(a, b), Lt(b, c)} :: Lt(a, b) && Lt(b, c) ==> Lt(a, c)
    ensures forall a, b {:trigger Lt(a, b)} :: !Lt(a, b) ==> a == b || Lt(b, a)
  {
    forall a, b | Lt(a, b)
      ensures a != b && !Lt(b, a)
    {
      Irreflexive(a);
      if Lt(b, a) {
        Transitive(a, b, a);
      }
    }
    forall a, b, c | Lt(a, b) && Lt(b, c)
      ensures Lt(a, c)
    {
      Transitive(a, b, c);
    }
    forall a, b | !Lt(a, b)
      ensures a == b || Lt(b, a)
    {
      Total(a, b);
    }
  }
}
