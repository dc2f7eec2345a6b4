/** Strings as their UTF-8 bytes, which never contain 0xFF, and the order of strings. */
module Texts {
  import opened Sorting

  type Byte = b: int | 0 <= b < 256
  type Bytes = seq<Byte>
  type Text = s: seq<Byte> | 0xFF !in s

  // Byte-wise lexicographic order, the order of string keys.

  predicate TextLe(a: Bytes, b: Bytes) {
    a == [] || (b != [] && (a[0] < b[0] || (a[0] == b[0] && TextLe(a[1..], b[1..]))))
  }

  lemma {:induction false} TextLeTotal(a: Bytes, b: Bytes)
    ensures TextLe(a, b) || TextLe(b, a)
    ensures TextLe(a, b) && TextLe(b, a) ==> a == b
  {
    if a != [] && b != [] && a[0] == b[0] {
      TextLeTotal(a[1..], b[1..]);
      if TextLe(a, b) && TextLe(b, a) {
        assert a == [a[0]] + a[1..] && b == [b[0]] + b[1..];
      }
    }
  }

  lemma {:induction false} TextLeTransitive(a: Bytes, b: Bytes, c: Bytes)
    requires TextLe(a, b) && TextLe(b, c)
    ensures TextLe(a, c)
  {
    if a != [] && a[0] == b[0] && b[0] == c[0] {
      TextLeTransitive(a[1..], b[1..], c[1..]);
    }
  }

  function KeyOrder(): (Text, Text) -> bool {
    (a: Text, b: Text) => TextLe(a, b)
  }

  lemma {:induction false} KeyOrderIsTotal()
    ensures TotalOrder(KeyOrder())
  {
    var le := KeyOrder();
    forall a: Text, b: Text ensures le(a, b) || le(b, a) {
      TextLeTotal(a, b);
    }
    forall a: Text, b: Text | le(a, b) && le(b, a) ensures a == b {
      TextLeTotal(a, b);
    }
    forall a: Text, b: Text, c: Text | le(a, b) && le(b, c) ensures le(a, c) {
      TextLeTransitive(a, b, c);
    }
  }

  const COLON: Byte := 0x3A
  const DOT: Byte := 0x2E
  const LBRACKET: Byte := 0x5B
  const RBRACKET: Byte := 0x5D
  const NEWLINE: Byte := 0x0A
  const ZERO: Byte := 0x30
}
