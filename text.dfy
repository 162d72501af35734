/**
 * Rust strings as the bytes of their UTF-8 encoding.
 *
 * `std::str::from_utf8` accepts exactly the well-formed UTF-8 byte
 * sequences (Unicode Standard, Table 3-7); `str::splitn(2, ':')` cuts a
 * string at its first colon.
 */
module Text {
  import opened Wrappers

  type byte = b: int | 0 <= b < 256

  /** The ASCII colon that separates a user name from its password. */
  const Colon: byte := 0x3A

  predicate IsContinuation(b: byte) { 0x80 <= b <= 0xBF }

  /**
   * Length of the well-formed UTF-8 sequence that starts `s`,
   * or 0 when `s` does not start with one.
   */
  function LeadLength(s: seq<byte>): (n: nat)
    ensures n <= |s| && n <= 4
    ensures n > 0 ==> |s| > 0
  {
    if |s| == 0 then 0
    else if s[0] < 0x80 then 1
    else if 0xC2 <= s[0] <= 0xDF then
      if |s| >= 2 && IsContinuation(s[1]) then 2 else 0
    else if s[0] == 0xE0 then
      if |s| >= 3 && 0xA0 <= s[1] <= 0xBF && IsContinuation(s[2]) then 3 else 0
    else if 0xE1 <= s[0] <= 0xEC || 0xEE <= s[0] <= 0xEF then
      if |s| >= 3 && IsContinuation(s[1]) && IsContinuation(s[2]) then 3 else 0
    else if s[0] == 0xED then
      if |s| >= 3 && 0x80 <= s[1] <= 0x9F && IsContinuation(s[2]) then 3 else 0
    else if s[0] == 0xF0 then
      if |s| >= 4 && 0x90 <= s[1] <= 0xBF && IsContinuation(s[2]) && IsContinuation(s[3]) then 4 else 0
    else if 0xF1 <= s[0] <= 0xF3 then
      if |s| >= 4 && IsContinuation(s[1]) && IsContinuation(s[2]) && IsContinuation(s[3]) then 4 else 0
    else if s[0] == 0xF4 then
      if |s| >= 4 && 0x80 <= s[1] <= 0x8F && IsContinuation(s[2]) && IsContinuation(s[3]) then 4 else 0
    else 0
  }

  /** What `std::str::from_utf8` accepts. */
  predicate ValidUtf8(s: seq<byte>)
    decreases |s|
  {
    |s| == 0 || (LeadLength(s) > 0 && ValidUtf8(s[LeadLength(s)..]))
  }

  /** A well-formed leading sequence is not changed by what follows it. */
  lemma LeadLengthPrefix(a: seq<byte>, b: seq<byte>)
    requires LeadLength(a) > 0
    ensures LeadLength(a + b) == LeadLength(a)
  {
    var s := a + b;
    assert forall k :: 0 <= k < |a| ==> s[k] == a[k];
  }

  /** Concatenating two strings gives a string (what `format!("{}:{}", …)` relies on). */
  lemma {:induction false} ValidUtf8Concat(a: seq<byte>, b: seq<byte>)
    requires ValidUtf8(a) && ValidUtf8(b)
    ensures ValidUtf8(a + b)
    decreases |a|
  {
    if |a| > 0 {
      var n := LeadLength(a);
      LeadLengthPrefix(a, b);
      assert (a + b)[n..] == a[n..] + b;
      ValidUtf8Concat(a[n..], b);
    } else {
      assert a + b == b;
    }
  }

  /** The credential text `user:pass` is a string whenever user and pass are. */
  lemma JoinIsUtf8(user: seq<byte>, pass: seq<byte>)
    requires ValidUtf8(user) && ValidUtf8(pass)
    ensures ValidUtf8(user + [Colon] + pass)
  {
    assert LeadLength([Colon]) == 1 && [Colon][1..] == [];
    ValidUtf8Concat(user, [Colon]);
    ValidUtf8Concat(user + [Colon], pass);
  }

  /**
   * `s.splitn(2, sep)` with both pieces present: the text before the first
   * `sep` and everything after it; None when `sep` does not occur.
   */
  function SplitOnce(s: seq<byte>, sep: byte): (r: Option<(seq<byte>, seq<byte>)>)
    ensures r.None? <==> sep !in s
    ensures r.Some? ==> s == r.value.0 + [sep] + r.value.1 && sep !in r.value.0
    decreases |s|
  {
    if |s| == 0 then None
    else if s[0] == sep then Some(([], s[1..]))
    else
      match SplitOnce(s[1..], sep)
      case None => None
      case Some(parts) => Some(([s[0]] + parts.0, parts.1))
  }

  /** The split point is unique: it is the first occurrence of `sep`. */
  lemma SplitOnceJoin(a: seq<byte>, b: seq<byte>, sep: byte)
    requires sep !in a
    ensures SplitOnce(a + [sep] + b, sep) == Some((a, b))
  {
    var s := a + [sep] + b;
    var r := SplitOnce(s, sep);
    assert sep in s by { assert s[|a|] == sep; }
    var a', b' := r.value.0, r.value.1;
    assert forall k :: 0 <= k < |a| ==> s[k] == a[k];
    assert forall k :: 0 <= k < |a'| ==> s[k] == a'[k];
    assert s[|a|] == sep && s[|a'|] == sep;
    assert a' == s[..|a|] == a;
    assert b' == s[|a| + 1..] == b;
  }
}
