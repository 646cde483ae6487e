/** String helpers: picking the first non-empty candidate, and reading a
    yes/no flag. */
module Strx {

  /** The first non-empty string of xs, or "" when there is none. */
  function Or(xs: seq<string>): (r: string)
    ensures r == "" <==> forall i :: 0 <= i < |xs| ==> xs[i] == ""
    ensures r != "" ==> exists i :: 0 <= i < |xs| && xs[i] == r
                                    && forall j :: 0 <= j < i ==> xs[j] == ""
  {
    if |xs| == 0 then ""
    else if xs[0] != "" then xs[0]
    else
      var r := Or(xs[1..]);
      assert forall i :: 1 <= i < |xs| ==> xs[i] == xs[1..][i - 1];
      if r == "" then r
      else
        var i :| 0 <= i < |xs[1..]| && xs[1..][i] == r && forall j :: 0 <= j < i ==> xs[1..][j] == "";
        assert xs[i + 1] == r;
        r
  }

  /** Putting more candidates after a non-empty choice does not change it;
      after only empty candidates the choice is made among the new ones. */
  lemma {:induction false} OrAppend(xs: seq<string>, ys: seq<string>)
    ensures Or(xs + ys) == if Or(xs) != "" then Or(xs) else Or(ys)
  {
    if |xs| > 0 {
      assert (xs + ys)[0] == xs[0];
      assert (xs + ys)[1..] == xs[1..] + ys;
      if xs[0] == "" {
        OrAppend(xs[1..], ys);
      }
    } else {
      assert xs + ys == ys;
    }
  }

  /** Whitespace as the ASCII range sees it: space, tab, newline, vertical
      tab, form feed and carriage return. */
  predicate IsSpace(c: char) {
    c == ' ' || c == '\t' || c == '\n' || c == '\U{B}' || c == '\U{C}' || c == '\r'
  }

  /** s without its leading whitespace. */
  function TrimLeft(s: string): (r: string)
    ensures |r| <= |s| && r == s[|s| - |r|..]
    ensures forall i :: 0 <= i < |s| - |r| ==> IsSpace(s[i])
    ensures r == "" || !IsSpace(r[0])
  {
    if |s| > 0 && IsSpace(s[0]) then TrimLeft(s[1..]) else s
  }

  /** s without its trailing whitespace. */
  function TrimRight(s: string): (r: string)
    ensures |r| <= |s| && r == s[..|r|]
    ensures forall i :: |r| <= i < |s| ==> IsSpace(s[i])
    ensures r == "" || !IsSpace(r[|r| - 1])
  {
    if |s| > 0 && IsSpace(s[|s| - 1]) then TrimRight(s[..|s| - 1]) else s
  }

  function TrimSpace(s: string): string {
    TrimRight(TrimLeft(s))
  }

  /** s reads as a yes: after trimming whitespace it is "yes" or "true". */
  predicate Yes(s: string) {
    var t := TrimSpace(s);
    t == "yes" || t == "true"
  }

  predicate AllSpace(s: string) {
    forall i :: 0 <= i < |s| ==> IsSpace(s[i])
  }

  /** Yes holds exactly for "yes" or "true" surrounded by whitespace. */
  lemma YesIff(s: string)
    ensures Yes(s) <==>
      exists a, w, b :: s == a + w + b && AllSpace(a) && AllSpace(b) && (w == "yes" || w == "true")
  {
    if Yes(s) {
      YesHasParts(s);
    }
    if exists a, w, b :: s == a + w + b && AllSpace(a) && AllSpace(b) && (w == "yes" || w == "true") {
      var a, w, b :| s == a + w + b && AllSpace(a) && AllSpace(b) && (w == "yes" || w == "true");
      PartsAreYes(a, w, b);
    }
  }

  lemma YesHasParts(s: string)
    requires Yes(s)
    ensures exists a, w, b :: s == a + w + b && AllSpace(a) && AllSpace(b) && (w == "yes" || w == "true")
  {
    var a, w, b := TrimParts(s);
  }

  lemma PartsAreYes(a: string, w: string, b: string)
    requires AllSpace(a) && AllSpace(b) && (w == "yes" || w == "true")
    ensures Yes(a + w + b)
  {
    TrimSpaceOf(a, w, b);
  }

  /** s is its trimmed text between a whitespace prefix and suffix. */
  lemma TrimParts(s: string) returns (a: string, w: string, b: string)
    ensures s == a + w + b && AllSpace(a) && AllSpace(b) && w == TrimSpace(s)
  {
    var l;
    a, l := LeftParts(s);
    w, b := RightParts(l);
    SeqAssoc(s, a, l, w, b);
  }

  lemma SeqAssoc(s: string, a: string, l: string, w: string, b: string)
    requires s == a + l && l == w + b
    ensures s == a + w + b
  {
  }

  lemma LeftParts(s: string) returns (a: string, l: string)
    ensures s == a + l && AllSpace(a) && l == TrimLeft(s)
  {
    l := TrimLeft(s);
    a := s[..|s| - |l|];
    assert s == s[..|s| - |l|] + s[|s| - |l|..];
    forall i | 0 <= i < |a|
      ensures IsSpace(a[i])
    {
      assert a[i] == s[i];
    }
  }

  lemma RightParts(l: string) returns (w: string, b: string)
    ensures l == w + b && AllSpace(b) && w == TrimRight(l)
  {
    w := TrimRight(l);
    b := l[|w|..];
    assert l == l[..|w|] + l[|w|..];
    forall i | 0 <= i < |b|
      ensures IsSpace(b[i])
    {
      assert b[i] == l[|w| + i];
    }
  }

  /** Trimming removes exactly the surrounding whitespace from text that
      starts and ends with a non-space character. */
  lemma TrimSpaceOf(a: string, w: string, b: string)
    requires AllSpace(a) && AllSpace(b) && |w| > 0 && !IsSpace(w[0]) && !IsSpace(w[|w| - 1])
    ensures TrimSpace(a + w + b) == w
  {
    assert (w + b)[0] == w[0];
    TrimLeftSkips(a, w + b);
    assert a + w + b == a + (w + b);
    TrimRightSkips(w, b);
  }

  /** Trimming the left end drops a whitespace prefix in front of text
      that starts with a non-space character. */
  lemma {:induction false} TrimLeftSkips(a: string, rest: string)
    requires AllSpace(a) && |rest| > 0 && !IsSpace(rest[0])
    ensures TrimLeft(a + rest) == rest
  {
    if |a| > 0 {
      assert (a + rest)[1..] == a[1..] + rest;
      TrimLeftSkips(a[1..], rest);
    } else {
      assert a + rest == rest;
    }
  }

  /** Trimming the right end drops a whitespace suffix behind text that
      ends with a non-space character. */
  lemma {:induction false} TrimRightSkips(w: string, b: string)
    requires AllSpace(b) && |w| > 0 && !IsSpace(w[|w| - 1])
    ensures TrimRight(w + b) == w
  {
    if |b| > 0 {
      assert (w + b)[..|w + b| - 1] == w + b[..|b| - 1];
      TrimRightSkips(w, b[..|b| - 1]);
    } else {
      assert w + b == w;
    }
  }
}
