/** Python's `str.split(maxsplit=1)` and `str.strip()` on whitespace. */
module PyStr {

  /** The characters for which Python's `str.isspace` holds. */
  predicate IsSpace(c: char) {
    var n := c as int;
    9 <= n <= 13 || 28 <= n <= 32 || n == 0x85 || n == 0xA0 || n == 0x1680 ||
    0x2000 <= n <= 0x200A || n == 0x2028 || n == 0x2029 || n == 0x202F || n == 0x205F || n == 0x3000
  }

  predicate Blank(s: string) { forall i :: 0 <= i < |s| ==> IsSpace(s[i]) }

  predicate NoSpace(s: string) { forall i :: 0 <= i < |s| ==> !IsSpace(s[i]) }

  function TrimLeft(s: string): string {
    if s != "" && IsSpace(s[0]) then TrimLeft(s[1..]) else s
  }

  function TrimRight(s: string): string {
    if s != "" && IsSpace(s[|s| - 1]) then TrimRight(s[..|s| - 1]) else s
  }

  /** `s.strip()` */
  function Strip(s: string): string { TrimRight(TrimLeft(s)) }

  /** The longest prefix of `s` without whitespace. */
  function Word(s: string): (w: string)
    ensures w <= s && NoSpace(w)
    ensures |w| < |s| ==> IsSpace(s[|w|])
  {
    if s != "" && !IsSpace(s[0]) then [s[0]] + Word(s[1..]) else ""
  }

  /** `s.split(maxsplit=1)`: the first word and, unless it is empty, what is
      left after the whitespace behind it. Trailing whitespace of that
      remainder is kept. */
  function SplitOnce(s: string): seq<string> {
    var t := TrimLeft(s);
    if t == "" then []
    else
      var w := Word(t);
      var rest := TrimLeft(t[|w|..]);
      if rest == "" then [w] else [w, rest]
  }

  // ----- Laws -----

  /** Neither empty nor bordered by whitespace. */
  predicate Trimmed(s: string) { s != "" && !IsSpace(s[0]) && !IsSpace(s[|s| - 1]) }

  lemma {:induction false} TrimLeftDrops(lead: string, s: string)
    requires Blank(lead) && (s != "" ==> !IsSpace(s[0]))
    ensures TrimLeft(lead + s) == s
  {
    if lead == "" {
      assert lead + s == s;
    } else {
      TrimLeftDrops(lead[1..], s);
      assert (lead + s)[1..] == lead[1..] + s;
    }
  }

  lemma {:induction false} TrimRightDrops(s: string, trail: string)
    requires Blank(trail) && (s != "" ==> !IsSpace(s[|s| - 1]))
    ensures TrimRight(s + trail) == s
  {
    if trail == "" {
      assert s + trail == s;
    } else {
      TrimRightDrops(s, trail[..|trail| - 1]);
      assert (s + trail)[..|s + trail| - 1] == s + trail[..|trail| - 1];
    }
  }

  lemma {:induction false} TrimLeftSplits(s: string) returns (lead: string)
    ensures s == lead + TrimLeft(s) && Blank(lead)
    ensures TrimLeft(s) != "" ==> !IsSpace(TrimLeft(s)[0])
  {
    if s != "" && IsSpace(s[0]) {
      var l := TrimLeftSplits(s[1..]);
      lead := [s[0]] + l;
    } else {
      lead := "";
    }
  }

  lemma {:induction false} TrimRightSplits(s: string) returns (trail: string)
    ensures s == TrimRight(s) + trail && Blank(trail)
    ensures TrimRight(s) != "" ==> !IsSpace(TrimRight(s)[|TrimRight(s)| - 1])
  {
    if s != "" && IsSpace(s[|s| - 1]) {
      var t := TrimRightSplits(s[..|s| - 1]);
      trail := t + [s[|s| - 1]];
    } else {
      trail := "";
    }
  }

  lemma {:induction false} WordTakes(w: string, s: string)
    requires NoSpace(w) && (s != "" ==> IsSpace(s[0]))
    ensures Word(w + s) == w
  {
    if w == "" {
      assert w + s == s;
    } else {
      WordTakes(w[1..], s);
      assert (w + s)[1..] == w[1..] + s;
      assert w == [w[0]] + w[1..];
    }
  }

  /** A first word, a gap and a remainder that starts with no whitespace. */
  lemma SplitOnceGives(lead: string, word: string, gap: string, rest: string)
    requires Blank(lead) && word != "" && NoSpace(word) && Blank(gap)
    requires rest != "" ==> gap != "" && !IsSpace(rest[0])
    ensures SplitOnce(lead + word + gap + rest) == if rest == "" then [word] else [word, rest]
  {
    var t := word + (gap + rest);
    assert lead + word + gap + rest == lead + t;
    TrimLeftDrops(lead, t);
    WordTakes(word, gap + rest);
    assert t[|word|..] == gap + rest;
    TrimLeftDrops(gap, rest);
  }

  lemma StripGives(lead: string, s: string, trail: string)
    requires Blank(lead) && Trimmed(s) && Blank(trail)
    ensures Strip(lead + s + trail) == s
  {
    assert lead + s + trail == lead + (s + trail);
    TrimLeftDrops(lead, s + trail);
    TrimRightDrops(s, trail);
  }
}
