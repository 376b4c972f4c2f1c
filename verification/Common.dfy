// Shared vocabulary: optional values, outcomes, bytes and big-endian words.
module Common {

  datatype Option<+T> = None | Some(value: T)

  datatype Result<+T, +E> = Ok(value: T) | Err(error: E)

  type Byte = b: int | 0 <= b < 256

  // A list in front of the rest of it, if there is a rest.
  function Prefixed<T>(front: seq<T>, rest: Option<seq<T>>): Option<seq<T>> {
    if rest.None? then None else Some(front + rest.value)
  }

  lemma PrefixedAppend<T>(a: seq<T>, b: seq<T>, rest: Option<seq<T>>)
    ensures Prefixed(a, Prefixed(b, rest)) == Prefixed(a + b, rest)
    ensures Prefixed([], rest) == rest
  {
    if rest.Some? {
      assert a + (b + rest.value) == (a + b) + rest.value;
      assert [] + rest.value == rest.value;
    }
  }

  lemma ConcatAssociates<T>(a: seq<T>, b: seq<T>, c: seq<T>)
    ensures (a + b) + c == a + (b + c)
  {
  }

  lemma HeadAndTail<T>(a: seq<T>, b: seq<T>)
    requires a != []
    ensures (a + b)[0] == a[0] && (a + b)[1..] == a[1..] + b
  {
  }

  lemma SuffixOneMore<T>(a: seq<T>, start: nat, x: T)
    requires start <= |a|
    ensures (a + [x])[start..] == a[start..] + [x]
  {
  }

  // The concatenation of a list of byte strings.
  function Flatten(parts: seq<seq<Byte>>): (r: seq<Byte>) {
    if parts == [] then [] else parts[0] + Flatten(parts[1..])
  }

  lemma {:induction false} FlattenAppend(a: seq<seq<Byte>>, b: seq<seq<Byte>>)
    ensures Flatten(a + b) == Flatten(a) + Flatten(b)
  {
    if a == [] {
      assert a + b == b;
    } else {
      FlattenAppend(a[1..], b);
      HeadAndTail(a, b);
      ConcatAssociates(a[0], Flatten(a[1..]), Flatten(b));
    }
  }

  // A 16-bit word in network order.
  function PutUint16(v: nat): (r: seq<Byte>)
    requires v < 0x1_0000
    ensures |r| == 2
  {
    [v / 256, v % 256]
  }

  function Uint16(bytes: seq<Byte>, at: nat): (v: nat)
    requires at + 2 <= |bytes|
    ensures v < 0x1_0000
  {
    (bytes[at] as int) * 256 + bytes[at + 1]
  }
}
