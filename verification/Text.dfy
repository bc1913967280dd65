/** The two questions the services ask of a string. */
module Text {

  predicate IsSpace(c: char) {
    c == ' ' || '\t' <= c <= '\r' || c == '\U{85}' || c == '\U{A0}' || c == '\U{1680}' ||
    '\U{2000}' <= c <= '\U{200A}' || c == '\U{2028}' || c == '\U{2029}' || c == '\U{202F}' ||
    c == '\U{205F}' || c == '\U{3000}'
  }

  /** `strings.TrimSpace`. */
  function Trim(s: string): string {
    if s == "" then ""
    else if IsSpace(s[0]) then Trim(s[1..])
    else if IsSpace(s[|s| - 1]) then Trim(s[..|s| - 1])
    else s
  }

  /** Bytes of the UTF-8 encoding. */
  function Utf8Length(s: string): nat {
    if s == "" then 0
    else (if s[0] < '\U{80}' then 1 else if s[0] < '\U{800}' then 2
          else if s[0] < '\U{10000}' then 3 else 4) + Utf8Length(s[1..])
  }

  /** What is cut off is space, and what is left neither starts nor ends with space. */
  lemma {:induction false} TrimIsExact(s: string) returns (i: nat, k: nat)
    ensures i <= k <= |s| && Trim(s) == s[i..k]
    ensures forall n | 0 <= n < i || k <= n < |s| :: IsSpace(s[n])
    ensures Trim(s) != "" ==> !IsSpace(s[i]) && !IsSpace(s[k - 1])
  {
    if s == "" {
      i, k := 0, 0;
    } else if IsSpace(s[0]) {
      i, k := TrimIsExact(s[1..]);
      i, k := i + 1, k + 1;
    } else if IsSpace(s[|s| - 1]) {
      i, k := TrimIsExact(s[..|s| - 1]);
    } else {
      i, k := 0, |s|;
    }
  }

  /** Of the ASCII characters exactly the blank and the five controls from tab to carriage return are space. */
  lemma AsciiSpace(c: char)
    requires c < '\U{80}'
    ensures IsSpace(c) <==> c in [' ', '\t', '\n', '\U{0B}', '\U{0C}', '\r']
  {
  }

  /** Lengths add up, and an ASCII character is one byte. */
  lemma {:induction false} Utf8LengthAdds(s: string, t: string)
    ensures Utf8Length(s + t) == Utf8Length(s) + Utf8Length(t)
  {
    if s == "" {
      assert s + t == t;
    } else {
      Utf8LengthAdds(s[1..], t);
      assert (s + t)[1..] == s[1..] + t;
    }
  }

  lemma Utf8LengthOfOne(c: char)
    ensures var n := Utf8Length([c]);
            && (n == 1 <==> c as int <= 0x7F) && (n == 2 <==> 0x80 <= c as int <= 0x7FF)
            && (n == 3 <==> 0x800 <= c as int <= 0xFFFF) && (n == 4 <==> 0x1_0000 <= c as int)
  {
  }
}
