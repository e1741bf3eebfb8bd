/** The few facts about Unicode text that the modelled code relies on: byte length in UTF-8 and trimming. */
module Text {

  /** Number of bytes of one scalar value in UTF-8. */
  function Utf8Width(c: char): (n: nat)
    ensures 1 <= n <= 4
  {
    var u := c as int;
    if u < 0x80 then 1 else if u < 0x800 then 2 else if u < 0x1_0000 then 3 else 4
  }

  /** `str::len`: the length of the text in bytes. */
  function Utf8Length(s: string): (n: nat)
    ensures |s| <= n <= 4 * |s|
  {
    if s == "" then 0 else Utf8Width(s[0]) + Utf8Length(s[1..])
  }

  lemma {:induction false} Utf8LengthOfConcat(s: string, t: string)
    ensures Utf8Length(s + t) == Utf8Length(s) + Utf8Length(t)
  {
    if s == "" {
      assert s + t == t;
    } else {
      assert (s + t)[1..] == s[1..] + t;
      Utf8LengthOfConcat(s[1..], t);
    }
  }

  /** ASCII text has one byte for each character. */
  lemma {:induction false} AsciiLength(s: string)
    requires forall n | 0 <= n < |s| :: s[n] as int < 0x80
    ensures Utf8Length(s) == |s|
  {
    if s != "" {
      AsciiLength(s[1..]);
    }
  }

  /** The Unicode property White_Space, which `str::trim` uses. */
  predicate IsWhitespace(c: char) {
    var u := c as int;
    || 0x9 <= u <= 0xD || u == 0x20 || u == 0x85 || u == 0xA0 || u == 0x1680
    || 0x2000 <= u <= 0x200A || u == 0x2028 || u == 0x2029 || u == 0x202F || u == 0x205F || u == 0x3000
  }

  /** No white space at either end. */
  predicate IsTrimmed(s: string) {
    s == "" || (!IsWhitespace(s[0]) && !IsWhitespace(s[|s| - 1]))
  }

  function TrimStart(s: string): string {
    if s != "" && IsWhitespace(s[0]) then TrimStart(s[1..]) else s
  }

  function TrimEnd(s: string): string {
    if s != "" && IsWhitespace(s[|s| - 1]) then TrimEnd(s[..|s| - 1]) else s
  }

  /** `str::trim`. */
  function Trim(s: string): string {
    TrimEnd(TrimStart(s))
  }

  lemma {:induction false} TrimStartCuts(s: string) returns (k: nat)
    ensures k <= |s| && TrimStart(s) == s[k..]
    ensures forall i | 0 <= i < k :: IsWhitespace(s[i])
    ensures k < |s| ==> !IsWhitespace(s[k])
  {
    if s != "" && IsWhitespace(s[0]) {
      var m := TrimStartCuts(s[1..]);
      k := m + 1;
      assert forall i | 1 <= i < |s| :: s[i] == s[1..][i - 1];
    } else {
      k := 0;
    }
  }

  lemma {:induction false} TrimEndCuts(s: string) returns (k: nat)
    ensures k <= |s| && TrimEnd(s) == s[..k]
    ensures forall i | k <= i < |s| :: IsWhitespace(s[i])
    ensures k > 0 ==> !IsWhitespace(s[k - 1])
  {
    if s != "" && IsWhitespace(s[|s| - 1]) {
      k := TrimEndCuts(s[..|s| - 1]);
      assert s[..|s| - 1][..k] == s[..k];
    } else {
      k := |s|;
    }
  }

  /** Trimming removes exactly the white space at both ends; a trimmed text is left as it is. */
  lemma TrimCuts(s: string) returns (a: nat, b: nat)
    ensures a <= b <= |s| && Trim(s) == s[a..b] && IsTrimmed(s[a..b])
    ensures forall i | 0 <= i < a || b <= i < |s| :: IsWhitespace(s[i])
    ensures IsTrimmed(s) ==> Trim(s) == s
  {
    a := TrimStartCuts(s);
    var t := s[a..];
    var k := TrimEndCuts(t);
    b := a + k;
    assert t[..k] == s[a..b];
    assert forall i | b <= i < |s| :: s[i] == t[i - a];
    if k > 0 {
      assert t[k - 1] == s[a..b][k - 1] && t[0] == s[a..b][0];
    }
  }

  lemma TrimIdempotent(s: string)
    ensures Trim(Trim(s)) == Trim(s)
  {
    var _, _ := TrimCuts(s);
    var _, _ := TrimCuts(Trim(s));
  }
}
