/** Failure-carrying wrappers shared by every module of the model. */
module Common {

  datatype Option<+T> = None | Some(value: T)

  /** The value of a Python call that either returns or raises. */
  datatype Result<+T, +E> = Ok(value: T) | Err(error: E)

  /** Python's `" ".join(parts)` generalised to any separator. */
  function Join(parts: seq<string>, sep: string): (r: string)
    ensures parts == [] ==> r == ""
    ensures |parts| == 1 ==> r == parts[0]
  {
    if parts == [] then ""
    else if |parts| == 1 then parts[0]
    else parts[0] + sep + Join(parts[1..], sep)
  }

  /** Python's `t in s` for strings: some window of `s` equals `t`. */
  ghost predicate HasSubstring(s: string, t: string)
  {
    exists i :: OccursAt(s, t, i)
  }

  /** `t` occurs in `s` starting at index `i`. */
  ghost predicate OccursAt(s: string, t: string, i: int)
  {
    0 <= i <= |s| - |t| && s[i..i + |t|] == t
  }

  /** Substring search, scanning left to right. */
  function Contains(s: string, t: string): (b: bool)
    decreases |s|
  {
    if |t| > |s| then false
    else if s[..|t|] == t then true
    else Contains(s[1..], t)
  }

  lemma {:induction false} ContainsIsSubstring(s: string, t: string)
    ensures Contains(s, t) <==> HasSubstring(s, t)
    decreases |s|
  {
    if |t| > |s| {
    } else if s[..|t|] == t {
      assert OccursAt(s, t, 0);
    } else {
      ContainsIsSubstring(s[1..], t);
      if HasSubstring(s, t) {
        var i :| OccursAt(s, t, i);
        assert i != 0;
        assert s[1..][i - 1..i - 1 + |t|] == s[i..i + |t|];
        assert OccursAt(s[1..], t, i - 1);
      }
      if HasSubstring(s[1..], t) {
        var i :| OccursAt(s[1..], t, i);
        assert s[i + 1..i + 1 + |t|] == s[1..][i..i + |t|];
        assert OccursAt(s, t, i + 1);
      }
    }
  }

  /** Substring occurrence is preserved by extending on either side. */
  lemma SubstringOfConcat(a: string, t: string, b: string)
    ensures HasSubstring(a + t + b, t)
  {
    assert (a + t + b)[|a|..|a| + |t|] == t;
    assert OccursAt(a + t + b, t, |a|);
  }

  /** Putting text in front keeps every occurrence. */
  lemma SubstringAfterPrefix(pre: string, s: string, t: string)
    requires HasSubstring(s, t)
    ensures HasSubstring(pre + s, t)
  {
    var j :| OccursAt(s, t, j);
    assert (pre + s)[|pre| + j..|pre| + j + |t|] == s[j..j + |t|];
    assert OccursAt(pre + s, t, |pre| + j);
  }

  function IsAsciiDigit(c: char): bool { '0' <= c <= '9' }

  /** ASCII-only `str.lower()`. */
  function Lower(s: string): (r: string)
    ensures |r| == |s|
  {
    seq(|s|, i requires 0 <= i < |s| => if 'A' <= s[i] <= 'Z' then (s[i] as int + 32) as char else s[i])
  }
}
