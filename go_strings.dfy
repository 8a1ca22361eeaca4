/** The few functions of Go's `strings` package that the secret store uses,
    over byte strings. */
module GoStrings {

  /** One byte. A Go `string` and a `[]byte` hold the same bytes, so both are
      modelled as `Bytes`, and the conversions `[]byte(s)` and `string(b)`
      are the identity on them. */
  type Byte = c: char | c <= '\U{FF}'

  type Bytes = seq<Byte>

  /** `strings.HasPrefix`: `s` begins with every byte of `prefix`, in order. */
  predicate HasPrefix(s: Bytes, prefix: Bytes)
    ensures HasPrefix(s, prefix) <==>
              |prefix| <= |s| && forall i :: 0 <= i < |prefix| ==> s[i] == prefix[i]
  {
    |prefix| <= |s| && s[..|prefix|] == prefix
  }

  /** `strings.TrimPrefix`: removes `prefix` once when `s` starts with it,
      and otherwise leaves `s` alone. */
  function TrimPrefix(s: Bytes, prefix: Bytes): (r: Bytes)
    ensures HasPrefix(s, prefix) ==> prefix + r == s
    ensures !HasPrefix(s, prefix) ==> r == s
  {
    if HasPrefix(s, prefix) then s[|prefix|..] else s
  }

  /** `strings.Index` for a one-byte needle: the position of the first `c`
      in `s`, or -1 when there is none. */
  function Index(s: Bytes, c: Byte): (i: int)
    ensures -1 <= i < |s|
    ensures i == -1 <==> c !in s
    ensures 0 <= i ==> s[i] == c && c !in s[..i]
  {
    if s == [] then -1
    else if s[0] == c then 0
    else
      var j := Index(s[1..], c);
      if j == -1 then -1
      else
        assert s[..j + 1] == [s[0]] + s[1..][..j];
        j + 1
  }

  /** `strings.ReplaceAll` for a one-byte pattern: every `from` in `s`
      becomes `to`; the bytes between are copied unchanged. */
  function ReplaceAll(s: Bytes, from: Byte, to: Bytes): (r: Bytes)
    ensures from !in s ==> r == s
    ensures from !in to ==> from !in r
  {
    if s == [] then []
    else (if s[0] == from then to else [s[0]]) + ReplaceAll(s[1..], from, to)
  }

  /** Number of occurrences of `c` in `s`. */
  function Count(s: Bytes, c: Byte): (n: nat)
    ensures n <= |s|
    ensures n == 0 <==> c !in s
  {
    if s == [] then 0 else (if s[0] == c then 1 else 0) + Count(s[1..], c)
  }

  /** Each `from` is traded for the bytes of `to`, and nothing else is
      added or lost. */
  lemma {:induction false} ReplaceAllLength(s: Bytes, from: Byte, to: Bytes)
    ensures |ReplaceAll(s, from, to)| == |s| - Count(s, from) + Count(s, from) * |to|
    decreases |s|
  {
    if s != [] {
      ReplaceAllLength(s[1..], from, to);
      var n, k := Count(s[1..], from), |to|;
      var rest := ReplaceAll(s[1..], from, to);
      assert |rest| == |s| - 1 - n + n * k;
      if s[0] == from {
        assert ReplaceAll(s, from, to) == to + rest;
        assert Count(s, from) == n + 1;
        assert (n + 1) * k == n * k + k;
      } else {
        assert ReplaceAll(s, from, to) == [s[0]] + rest;
        assert Count(s, from) == n;
      }
    }
  }

  /** A lone `from` becomes `to`. */
  lemma ReplaceAllMatch(from: Byte, to: Bytes)
    ensures ReplaceAll([from], from, to) == to
  {
    assert [from][1..] == [];
    assert to + [] == to;
  }

  /** A lone byte other than `from` is copied. */
  lemma ReplaceAllOther(c: Byte, from: Byte, to: Bytes)
    requires c != from
    ensures ReplaceAll([c], from, to) == [c]
  {
  }

  /** Replacement works byte by byte: it distributes over concatenation. */
  lemma {:induction false} ReplaceAllAppend(a: Bytes, b: Bytes, from: Byte, to: Bytes)
    ensures ReplaceAll(a + b, from, to) == ReplaceAll(a, from, to) + ReplaceAll(b, from, to)
    decreases |a|
  {
    if a == [] {
      assert a + b == b;
    } else {
      assert (a + b)[0] == a[0];
      assert (a + b)[1..] == a[1..] + b;
      ReplaceAllAppend(a[1..], b, from, to);
    }
  }
}
