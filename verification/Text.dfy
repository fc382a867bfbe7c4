/**
 String operations the sources call on configuration values and log rows. Characters outside ASCII are kept as they
 are: no case folding, no Unicode white space and no Unicode digits.
 */
module Text {
  predicate IsSpace(c: char) {
    c == ' ' || '\t' <= c <= '\r' || 0x1C as char <= c <= 0x1F as char
  }

  lemma SpacesExactly(c: char)
    ensures IsSpace(c) <==> c as int in {9, 10, 11, 12, 13, 28, 29, 30, 31, 32}
  {
  }

  function TrimStart(s: string): (r: string)
    ensures |r| <= |s| && r == s[|s| - |r|..]
    ensures r != [] ==> !IsSpace(r[0])
    ensures forall i | 0 <= i < |s| - |r| :: IsSpace(s[i])
  {
    if s != [] && IsSpace(s[0]) then TrimStart(s[1..]) else s
  }

  function TrimEnd(s: string): (r: string)
    ensures |r| <= |s| && r == s[..|r|]
    ensures r != [] ==> !IsSpace(r[|r| - 1])
  {
    if s != [] && IsSpace(s[|s| - 1]) then TrimEnd(s[..|s| - 1]) else s
  }

  function Trim(s: string): string {
    TrimEnd(TrimStart(s))
  }

  function LowerChar(c: char): char {
    if 'A' <= c <= 'Z' then (c as int + 32) as char else c
  }

  function Lower(s: string): (r: string)
    ensures |r| == |s|
  {
    seq(|s|, i requires 0 <= i < |s| => LowerChar(s[i]))
  }

  /** Replaces every occurrence of one character. */
  function Replace(s: string, from: char, to: char): (r: string)
    ensures |r| == |s|
  {
    seq(|s|, i requires 0 <= i < |s| => if s[i] == from then to else s[i])
  }

  predicate Contains(s: string, part: string) {
    part <= s || (s != [] && Contains(s[1..], part))
  }

  // ---------------------------------------------------------------- cutting at a character

  /** What comes before the first `c`, or everything. */
  function Before(s: string, c: char): (r: string)
    ensures c !in r && r <= s
    ensures c in s ==> |r| < |s| && s[|r|] == c
    ensures c !in s ==> r == s
  {
    if s == "" || s[0] == c then "" else [s[0]] + Before(s[1..], c)
  }

  /** What comes after the first `c`, if there is one. */
  function After(s: string, c: char): (r: string)
    ensures c in s ==> |r| < |s| && s == Before(s, c) + [c] + r
    ensures c !in s ==> r == ""
  {
    if s == "" then "" else if s[0] == c then s[1..] else After(s[1..], c)
  }

  function Split(s: string, c: char): (parts: seq<string>)
    ensures parts != [] && (|parts| == 1 <==> c !in s)
    ensures c !in s ==> parts == [s]
    decreases |s|
  {
    if c !in s then [s] else [Before(s, c)] + Split(After(s, c), c)
  }

  lemma {:induction false} BeforeFirst(a: string, c: char, b: string)
    requires c !in a
    ensures Before(a + [c] + b, c) == a && After(a + [c] + b, c) == b
  {
    if a == "" {
      assert a + [c] + b == [c] + b;
    } else {
      assert (a + [c] + b)[1..] == a[1..] + [c] + b;
      BeforeFirst(a[1..], c, b);
    }
  }

  lemma {:induction false} BeforeSkips(a: string, b: string, c: char)
    requires c !in a
    ensures Before(a + b, c) == a + Before(b, c)
  {
    if a == "" {
      assert a + b == b;
    } else {
      assert (a + b)[1..] == a[1..] + b;
      BeforeSkips(a[1..], b, c);
    }
  }

  lemma SplitAtFirst(head: string, c: char, rest: string)
    requires c !in head
    ensures Split(head + [c] + rest, c) == [head] + Split(rest, c)
  {
    BeforeFirst(head, c, rest);
  }

  lemma Prepended(head: string, a: seq<string>, b: seq<string>)
    ensures [head] + (a + b) == [head] + a + b
  {
  }

  lemma {:induction false} SplitConcat(a: string, c: char, b: string)
    ensures Split(a + [c] + b, c) == Split(a, c) + Split(b, c)
    decreases |a|
  {
    if c !in a {
      SplitAtFirst(a, c, b);
    } else {
      var head, tail := Before(a, c), After(a, c);
      assert a + [c] + b == head + [c] + (tail + [c] + b);
      SplitAtFirst(head, c, tail + [c] + b);
      SplitConcat(tail, c, b);
      SplitAtFirst(head, c, tail);
      Prepended(head, Split(tail, c), Split(b, c));
    }
  }

  /** Characters put in front only change the first part. */
  lemma SplitSkips(a: string, b: string, c: char)
    requires c !in a
    ensures Split(a + b, c) == [a + Split(b, c)[0]] + Split(b, c)[1..]
  {
    if c in b {
      var head, rest := Before(b, c), After(b, c);
      assert b == head + [c] + rest && a + b == (a + head) + [c] + rest;
      SplitAtFirst(head, c, rest);
      SplitAtFirst(a + head, c, rest);
    } else {
      assert c !in a + b;
    }
  }

  // ---------------------------------------------------------------- decimal numbers

  predicate IsDigit(c: char) {
    '0' <= c <= '9'
  }

  predicate IsDigits(s: string) {
    s != "" && forall i | 0 <= i < |s| :: IsDigit(s[i])
  }

  function ToNat(s: string): nat
    requires forall i | 0 <= i < |s| :: IsDigit(s[i])
  {
    if s == "" then 0
    else
      assert IsDigit(s[|s| - 1]);
      10 * ToNat(s[..|s| - 1]) + (s[|s| - 1] as int - '0' as int)
  }

  function Digits(n: nat): string {
    (if n < 10 then "" else Digits(n / 10)) + [('0' as int + n % 10) as char]
  }

  lemma {:induction false} DigitsRoundTrip(n: nat)
    ensures IsDigits(Digits(n)) && ToNat(Digits(n)) == n
  {
    if n >= 10 {
      DigitsRoundTrip(n / 10);
    }
    var head := if n < 10 then "" else Digits(n / 10);
    assert Digits(n)[..|Digits(n)| - 1] == head;
  }

  // ---------------------------------------------------------------- letters and white space

  /** The other case of a lower-case letter. */
  function UpperChar(c: char): char
    requires 'a' <= c <= 'z'
  {
    (c as int - 32) as char
  }

  /** Lower-casing makes a lower-case letter of exactly the two cases of that letter. */
  lemma LowerOfLetter(a: char, c: char)
    requires 'a' <= c <= 'z'
    ensures LowerChar(a) == c <==> a == c || a == UpperChar(c)
  {
  }

  /** It makes any other character that is not a letter of that character alone. */
  lemma LowerOfOther(a: char, c: char)
    requires !('a' <= c <= 'z') && !('A' <= c <= 'Z')
    ensures LowerChar(a) == c <==> a == c
  {
  }

  predicate AllSpace(s: string) {
    forall i | 0 <= i < |s| :: IsSpace(s[i])
  }

  lemma {:induction false} TrimStartSkips(front: string, s: string)
    requires AllSpace(front) && s != "" && !IsSpace(s[0])
    ensures TrimStart(front + s) == s
  {
    if front == "" {
      assert front + s == s;
    } else {
      assert (front + s)[1..] == front[1..] + s;
      TrimStartSkips(front[1..], s);
    }
  }

  lemma {:induction false} TrimEndSkips(s: string, back: string)
    requires AllSpace(back) && s != "" && !IsSpace(s[|s| - 1])
    ensures TrimEnd(s + back) == s
  {
    if back == "" {
      assert s + back == s;
    } else {
      assert (s + back)[..|s + back| - 1] == s + back[..|back| - 1];
      TrimEndSkips(s, back[..|back| - 1]);
    }
  }

  /** Trimming removes the white space around a text, and nothing else. */
  lemma TrimIsExact(front: string, s: string, back: string)
    requires AllSpace(front) && AllSpace(back) && s != "" && !IsSpace(s[0]) && !IsSpace(s[|s| - 1])
    ensures Trim(front + s + back) == s
  {
    assert front + s + back == front + (s + back) && (s + back)[0] == s[0];
    TrimStartSkips(front, s + back);
    TrimEndSkips(s, back);
  }

  predicate HasAt(s: string, part: string, i: nat) {
    i + |part| <= |s| && s[i..i + |part|] == part
  }

  lemma HasAtFront(s: string, part: string)
    ensures HasAt(s, part, 0) <==> part <= s
  {
  }

  lemma HasAtLater(s: string, part: string, i: nat)
    requires s != ""
    ensures HasAt(s, part, i + 1) <==> HasAt(s[1..], part, i)
  {
    if i + 1 + |part| <= |s| {
      assert s[i + 1..i + 1 + |part|] == s[1..][i..i + |part|];
    }
  }

  /** To contain a text is to have it somewhere. */
  lemma {:induction false} ContainsIsSomewhere(s: string, part: string)
    ensures Contains(s, part) <==> exists i: nat :: HasAt(s, part, i)
  {
    HasAtFront(s, part);
    if !(part <= s) && s != "" {
      ContainsIsSomewhere(s[1..], part);
      if Contains(s[1..], part) {
        var i: nat :| HasAt(s[1..], part, i);
        HasAtLater(s, part, i);
      }
      forall i: nat | HasAt(s, part, i)
        ensures Contains(s[1..], part)
      {
        HasAtLater(s, part, i - 1);
      }
    }
  }

}
