/** Python's whitespace and `str.strip`. */
module Whitespace {
  /** Python's `str.isspace`. */
  predicate IsSpace(c: char) {
    var n := c as int;
    || 0x09 <= n <= 0x0D || 0x1C <= n <= 0x20 || n == 0x85 || n == 0xA0 || n == 0x1680
    || 0x2000 <= n <= 0x200A || n == 0x2028 || n == 0x2029 || n == 0x202F || n == 0x205F || n == 0x3000
  }

  predicate AllSpaces(s: string) { forall i | 0 <= i < |s| :: IsSpace(s[i]) }

  /** The leading whitespace of a text. */
  function Spaces(s: string): (w: string)
    ensures w <= s && AllSpaces(w)
    ensures |w| < |s| ==> !IsSpace(s[|w|])
  {
    if |s| == 0 || !IsSpace(s[0]) then "" else [s[0]] + Spaces(s[1..])
  }

  function AfterSpaces(s: string): string { s[|Spaces(s)|..] }

  function StripRight(s: string): string {
    if |s| > 0 && IsSpace(s[|s| - 1]) then StripRight(s[..|s| - 1]) else s
  }

  /** `str.strip`. */
  function Strip(s: string): string { StripRight(AfterSpaces(s)) }

  lemma {:induction false} RightSplits(s: string) returns (after: string)
    ensures s == StripRight(s) + after && AllSpaces(after)
    ensures StripRight(s) != "" ==> !IsSpace(StripRight(s)[|StripRight(s)| - 1])
  {
    if |s| > 0 && IsSpace(s[|s| - 1]) {
      var rest := RightSplits(s[..|s| - 1]);
      after := rest + [s[|s| - 1]];
      assert s == s[..|s| - 1] + [s[|s| - 1]];
    } else {
      after := "";
    }
  }

  /** Stripping takes whitespace off both ends and leaves a text that has none there. */
  lemma StripSplits(s: string) returns (before: string, after: string)
    ensures s == before + Strip(s) + after && AllSpaces(before) && AllSpaces(after)
    ensures Strip(s) != "" ==> !IsSpace(Strip(s)[0]) && !IsSpace(Strip(s)[|Strip(s)| - 1])
  {
    before := Spaces(s);
    after := RightSplits(AfterSpaces(s));
    assert s == before + AfterSpaces(s);
    assert AfterSpaces(s) != "" ==> AfterSpaces(s)[0] == s[|before|];
  }

  /** Nothing is left exactly when there is nothing but whitespace. */
  lemma StripIsEmpty(s: string)
    ensures Strip(s) == "" <==> forall c | c in s :: IsSpace(c)
  {
    var before, after := StripSplits(s);
    if Strip(s) == "" {
      forall c | c in s ensures IsSpace(c) {
        assert s == before + after;
        if c in before {
          var i :| 0 <= i < |before| && before[i] == c;
        } else {
          var i :| 0 <= i < |after| && after[i] == c;
        }
      }
    } else {
      assert s[|before|] == Strip(s)[0];
      assert s[|before|] in s;
    }
  }
}
