/** The searches of std::string that HTTPPacket.cpp is built from; `None` plays the part of npos. */
module Text {
  import opened Wrappers

  const CRLF: string := "\r\n"

  /** The empty line that ends a packet. */
  const BLANK: string := "\r\n\r\n"

  /** The first `k` characters of `p` are those of `s` from `i`. */
  predicate Matches(s: string, p: string, i: nat, k: nat)
    requires i + k <= |s| && k <= |p|
  {
    k == 0 || (s[i + k - 1] == p[k - 1] && Matches(s, p, i, k - 1))
  }

  /** `p` occurs in `s` at index `i`. */
  predicate At(s: string, p: string, i: nat) {
    i + |p| <= |s| && Matches(s, p, i, |p|)
  }

  lemma {:induction false} MatchesMeans(s: string, p: string, i: nat, k: nat)
    requires i + k <= |s| && k <= |p|
    ensures Matches(s, p, i, k) <==> forall j :: 0 <= j < k ==> s[i + j] == p[j]
  {
    if k == 0 {
    } else {
      MatchesMeans(s, p, i, k - 1);
    }
  }

  lemma AtMeans(s: string, p: string, i: nat)
    ensures At(s, p, i) <==> i + |p| <= |s| && s[i..i + |p|] == p
  {
    if i + |p| <= |s| {
      MatchesMeans(s, p, i, |p|);
      assert (forall j :: 0 <= j < |p| ==> s[i + j] == p[j]) <==> s[i..i + |p|] == p;
    }
  }

  ghost predicate Contains(s: string, p: string) {
    exists i: nat :: At(s, p, i)
  }

  predicate Free(s: string, cs: string) {
    forall i :: 0 <= i < |s| ==> s[i] !in cs
  }

  /** `s.find(p, from)`. */
  function Find(s: string, p: string, from: nat): (r: Option<nat>)
    ensures r.Some? ==> from <= r.value <= r.value + |p| <= |s|
    decreases |s| + 1 - from
  {
    if from + |p| > |s| then None
    else if At(s, p, from) then Some(from)
    else Find(s, p, from + 1)
  }

  /** `Find` gives the first occurrence at or after `from`, and None only if there is none. */
  lemma {:induction false} FindMeans(s: string, p: string, from: nat)
    ensures match Find(s, p, from)
            case Some(i) => At(s, p, i) && forall j: nat :: from <= j < i ==> !At(s, p, j)
            case None => forall j: nat :: from <= j ==> !At(s, p, j)
    decreases |s| + 1 - from
  {
    if from + |p| > |s| || At(s, p, from) {
    } else {
      FindMeans(s, p, from + 1);
    }
  }

  /** The first occurrence is unique. */
  lemma FindAt(s: string, p: string, from: nat, i: nat)
    requires from <= i && At(s, p, i) && forall j: nat :: from <= j < i ==> !At(s, p, j)
    ensures Find(s, p, from) == Some(i)
  {
    FindMeans(s, p, from);
  }

  lemma FindNone(s: string, p: string, from: nat)
    requires forall j: nat :: from <= j ==> !At(s, p, j)
    ensures Find(s, p, from) == None
  {
    FindMeans(s, p, from);
  }

  /** `s.find_first_of(cs, from)`. */
  function FirstOf(s: string, cs: string, from: nat): (r: Option<nat>)
    ensures r.Some? ==> from <= r.value < |s| && s[r.value] in cs
    ensures r.Some? ==> forall j :: from <= j < r.value ==> s[j] !in cs
    ensures r.None? ==> forall j :: from <= j < |s| ==> s[j] !in cs
    decreases |s| - from
  {
    if from >= |s| then None
    else if s[from] in cs then Some(from)
    else FirstOf(s, cs, from + 1)
  }

  /** `s.find_first_not_of(cs, from)`. */
  function FirstNotOf(s: string, cs: string, from: nat): (r: Option<nat>)
    ensures r.Some? ==> from <= r.value < |s| && s[r.value] !in cs
    ensures r.Some? ==> forall j :: from <= j < r.value ==> s[j] in cs
    ensures r.None? ==> forall j :: from <= j < |s| ==> s[j] in cs
    decreases |s| - from
  {
    if from >= |s| then None
    else if s[from] !in cs then Some(from)
    else FirstNotOf(s, cs, from + 1)
  }

  /** `s.rfind(c)`. */
  function LastOf(s: string, c: char): (r: Option<nat>)
    ensures r.Some? ==> r.value < |s| && s[r.value] == c
    ensures r.Some? ==> forall j :: r.value < j < |s| ==> s[j] != c
    ensures r.None? ==> c !in s
  {
    if s == "" then None
    else if s[|s| - 1] == c then Some(|s| - 1)
    else LastOf(s[..|s| - 1], c)
  }

  // Occurrences in concatenations and suffixes

  lemma AtSuffix(s: string, p: string, k: nat, i: nat)
    requires k <= |s|
    ensures At(s[k..], p, i) <==> At(s, p, k + i)
  {
    AtMeans(s, p, k + i);
    AtMeans(s[k..], p, i);
    if k + i + |p| <= |s| {
      assert s[k..][i..i + |p|] == s[k + i..k + i + |p|];
    }
  }

  lemma AtRight(a: string, b: string, p: string, i: nat)
    ensures At(a + b, p, |a| + i) <==> At(b, p, i)
  {
    AtSuffix(a + b, p, |a|, i);
    assert (a + b)[|a|..] == b;
  }

  lemma AtLeft(a: string, b: string, p: string, i: nat)
    requires i + |p| <= |a|
    ensures At(a + b, p, i) <==> At(a, p, i)
  {
    AtMeans(a + b, p, i);
    AtMeans(a, p, i);
    assert (a + b)[i..i + |p|] == a[i..i + |p|];
  }

  lemma AtChars(s: string, p: string, i: nat, k: nat)
    requires At(s, p, i) && k < |p|
    ensures s[i + k] == p[k]
  {
    AtMeans(s, p, i);
    assert s[i..i + |p|][k] == s[i + k];
  }

  lemma AtOne(s: string, c: char, i: nat)
    ensures At(s, [c], i) <==> i < |s| && s[i] == c
  {
    assert i < |s| ==> (Matches(s, [c], i, 1) <==> s[i] == c && Matches(s, [c], i, 0));
  }

  lemma AtTwo(s: string, c: char, d: char, i: nat)
    ensures At(s, [c, d], i) <==> i + 1 < |s| && s[i] == c && s[i + 1] == d
  {
    assert i + 1 < |s| ==> (Matches(s, [c, d], i, 1) <==> s[i] == c);
  }

  /** Searching a suffix is searching the whole text from that place. */
  lemma {:induction false} FindSuffix(s: string, p: string, k: nat, from: nat)
    requires k <= |s|
    ensures Find(s, p, k + from) ==
            match Find(s[k..], p, from) case Some(i) => Some(k + i) case None => None
    decreases |s| - k + 1 - from
  {
    if k + from + |p| > |s| {
    } else {
      AtSuffix(s, p, k, from);
      if !At(s, p, k + from) {
        FindSuffix(s, p, k, from + 1);
      }
    }
  }

  /** Text in which no occurrence starts can be skipped. */
  lemma {:induction false} FindFurther(s: string, p: string, from: nat, k: nat)
    requires from <= k && forall j: nat :: from <= j < k ==> !At(s, p, j)
    ensures Find(s, p, from) == Find(s, p, k)
    decreases k - from
  {
    if from == k {
    } else {
      FindFurther(s, p, from + 1, k);
    }
  }

  lemma FindSkips(a: string, b: string, p: string)
    requires forall j: nat :: j < |a| ==> !At(a + b, p, j)
    ensures Find(a + b, p, 0) == match Find(b, p, 0) case Some(i) => Some(|a| + i) case None => None
  {
    assert (a + b)[|a|..] == b;
    FindSuffix(a + b, p, |a|, 0);
    FindFurther(a + b, p, 0, |a|);
  }

  /** Searching for one character: `find(" ")` is `find_first_of(" ")`. */
  lemma FindOne(s: string, c: char, from: nat)
    ensures Find(s, [c], from) == FirstOf(s, [c], from)
  {
    forall k: nat ensures At(s, [c], k) <==> k < |s| && s[k] == c {
      AtOne(s, c, k);
    }
    match FirstOf(s, [c], from) {
      case Some(i) => FindAt(s, [c], from, i);
      case None => FindNone(s, [c], from);
    }
  }

  // Lines

  /** The lines of `ls`, each followed by CRLF. */
  function Terminated(ls: seq<string>): string {
    if ls == [] then "" else ls[0] + CRLF + Terminated(ls[1..])
  }

  lemma TerminatedConcat(a: seq<string>, b: seq<string>)
    ensures Terminated(a + b) == Terminated(a) + Terminated(b)
  {
    if a == [] {
      assert a + b == b;
    } else {
      assert (a + b)[1..] == a[1..] + b;
      TerminatedConcat(a[1..], b);
    }
  }

  /** A line without CRLF ends at the first CRLF, whatever its last character is. */
  lemma FindLineEnd(line: string, rest: string)
    requires !Contains(line, CRLF)
    ensures Find(line + CRLF + rest, CRLF, 0) == Some(|line|)
  {
    var s := line + CRLF + rest;
    AtTwo(s, '\r', '\n', |line|);
    forall j: nat | j < |line| ensures !At(s, CRLF, j) {
      AtTwo(s, '\r', '\n', j);
      if j + 2 <= |line| {
        assert s == line + (CRLF + rest);
        AtLeft(line, CRLF + rest, CRLF, j);
      }
    }
    FindAt(s, CRLF, 0, |line|);
  }

  /** A pattern without CR and LF that is not in a line does not start in it or in its CRLF. */
  lemma FindPastLine(line: string, rest: string, p: string)
    requires p != "" && Free(p, CRLF) && !Contains(line, p)
    ensures forall j: nat :: j < |line| + 2 ==> !At(line + CRLF + rest, p, j)
  {
    var s := line + CRLF + rest;
    forall j: nat | j < |line| + 2 ensures !At(s, p, j) {
      if At(s, p, j) {
        if j + |p| <= |line| {
          assert s == line + (CRLF + rest);
          AtLeft(line, CRLF + rest, p, j);
        } else if j <= |line| {
          AtChars(s, p, j, |line| - j);
        } else {
          AtChars(s, p, j, 0);
        }
      }
    }
  }

  predicate HeaderLine(l: string) {
    l != "" && forall i :: 0 <= i < |l| ==> l[i] != '\r'
  }

  /** No empty line starts in a line, or in its CRLF when the next line is not empty. */
  lemma NoBlankInLine(line: string, tail: string)
    requires HeaderLine(line) && (tail == "" || tail[0] != '\r')
    ensures forall j: nat :: j < |line| + 2 ==> !At(line + CRLF + tail, BLANK, j)
  {
    var s := line + CRLF + tail;
    forall j: nat | j < |line| + 2 ensures !At(s, BLANK, j) {
      if At(s, BLANK, j) {
        AtChars(s, BLANK, j, 0);
        AtChars(s, BLANK, j, 2);
      }
    }
  }

  lemma BlankAfterLine(line: string, rest: string)
    requires HeaderLine(line)
    ensures Find(line + CRLF + (CRLF + rest), BLANK, 0) == Some(|line|)
  {
    var s := line + CRLF + (CRLF + rest);
    AtMeans(s, BLANK, |line|);
    assert s[|line|..|line| + 4] == BLANK;
    forall j: nat | j < |line| ensures !At(s, BLANK, j) {
      if At(s, BLANK, j) {
        AtChars(s, BLANK, j, 0);
      }
    }
    FindAt(s, BLANK, 0, |line|);
  }

  /** Non-empty lines without CR, then CRLF: the first empty line is the one after them. */
  lemma {:induction false} FirstBlank(ls: seq<string>, rest: string)
    requires ls != [] && forall l :: l in ls ==> HeaderLine(l)
    ensures |Terminated(ls)| >= 2
    ensures Find(Terminated(ls) + CRLF + rest, BLANK, 0) == Some(|Terminated(ls)| - 2)
  {
    var line := ls[0];
    if |ls| == 1 {
      assert Terminated(ls) + CRLF + rest == line + CRLF + (CRLF + rest);
      BlankAfterLine(line, rest);
    } else {
      var tail := Terminated(ls[1..]) + CRLF + rest;
      assert Terminated(ls) + CRLF + rest == line + CRLF + tail;
      assert HeaderLine(ls[1]) && tail[0] == ls[1][0];
      NoBlankInLine(line, tail);
      assert forall l :: l in ls[1..] ==> l in ls;
      FirstBlank(ls[1..], rest);
      FindSkips(line + CRLF, tail, BLANK);
    }
  }
}
