/** File name patterns: the Desktop's matcher that remembers its last star, and the file selector's recursive one. */
module WildMatch {
  /** What a pattern means: '*' stands for any text, '?' for any character, all else for itself. */
  ghost predicate Matches(pattern: string, name: string)
    decreases |pattern|
  {
    if pattern == [] then name == []
    else if pattern[0] == '*' then exists k | 0 <= k <= |name| :: Matches(pattern[1..], name[k..])
    else name != [] && Fits(pattern[0], name[0]) && Matches(pattern[1..], name[1..])
  }

  predicate Fits(p: char, c: char) {
    p == '?' || p == c
  }

  /** The pattern matches the text from some place at or after `from` on. */
  ghost predicate MatchesLater(pattern: string, name: string, from: int) {
    exists k | 0 <= k <= |name| && from <= k :: Matches(pattern, name[k..])
  }

  lemma StarIs(pattern: string, name: string, i: nat, j: nat)
    requires i < |pattern| && pattern[i] == '*' && j <= |name|
    ensures Matches(pattern[i..], name[j..]) <==> MatchesLater(pattern[i + 1..], name, j)
  {
    var (rest, tail) := (pattern[i..], name[j..]);
    assert rest[1..] == pattern[i + 1..];
    if Matches(rest, tail) {
      var k :| 0 <= k <= |tail| && Matches(rest[1..], tail[k..]);
      assert tail[k..] == name[j + k..];
    }
    if MatchesLater(pattern[i + 1..], name, j) {
      var k :| 0 <= k <= |name| && j <= k && Matches(pattern[i + 1..], name[k..]);
      assert tail[k - j..] == name[k..];
    }
  }

  /** A second star in a row makes no difference. */
  lemma StarsIs(pattern: string, name: string, i: nat, j: nat)
    requires i < |pattern| && pattern[i] == '*' && j <= |name|
    ensures MatchesLater(pattern[i..], name, j) <==> MatchesLater(pattern[i + 1..], name, j)
  {
    if MatchesLater(pattern[i..], name, j) {
      var k :| 0 <= k <= |name| && j <= k && Matches(pattern[i..], name[k..]);
      StarIs(pattern, name, i, k);
    }
    if MatchesLater(pattern[i + 1..], name, j) {
      StarIs(pattern, name, i, j);
    }
  }

  lemma CharIs(pattern: string, name: string, i: nat, j: nat)
    requires i < |pattern| && pattern[i] != '*' && j < |name|
    ensures Matches(pattern[i..], name[j..]) <==> Fits(pattern[i], name[j]) && Matches(pattern[i + 1..], name[j + 1..])
  {
    assert pattern[i..][1..] == pattern[i + 1..] && name[j..][1..] == name[j + 1..];
  }

  lemma LaterIs(pattern: string, name: string, j: nat)
    requires j <= |name|
    ensures MatchesLater(pattern, name, j) <==> Matches(pattern, name[j..]) || MatchesLater(pattern, name, j + 1)
  {
  }

  /** A stretch without stars takes as many characters as it has. */
  lemma {:induction false} PlainStretch(pattern: string, i: nat, to: nat, name: string, j: nat)
    requires i <= to <= |pattern| && j <= |name| && (forall k | i <= k < to :: pattern[k] != '*')
    requires Matches(pattern[i..], name[j..])
    ensures j + (to - i) <= |name| && Matches(pattern[to..], name[j + (to - i)..])
    decreases |pattern| - i
  {
    if i < to {
      assert name[j..] != [];
      CharIs(pattern, name, i, j);
      PlainStretch(pattern, i + 1, to, name, j + 1);
    }
  }

  /** The choices an earlier star left open are covered by a later star: whatever the earlier one could still match, the
      later one matches too. Between the two stars there are none. */
  lemma EarlierStar(pattern: string, name: string, retry: nat, i: nat, from: nat, j: nat)
    requires retry <= i < |pattern| && pattern[i] == '*' && (forall k | retry <= k < i :: pattern[k] != '*')
    requires from <= j <= |name| && j - from == i - retry
    ensures MatchesLater(pattern[retry..], name, from + 1) ==> MatchesLater(pattern[i + 1..], name, j)
  {
    if MatchesLater(pattern[retry..], name, from + 1) {
      var k: nat :| k <= |name| && from + 1 <= k && Matches(pattern[retry..], name[k..]);
      PlainStretch(pattern, retry, i, name, k);
      StarIs(pattern, name, i, k + (i - retry));
    }
  }

  /** With the text used up, a pattern's earlier star has no choices left. */
  lemma NoRoom(pattern: string, name: string, retry: nat, i: nat, from: nat)
    requires retry <= i <= |pattern| && (forall k | retry <= k < i :: pattern[k] != '*')
    requires from <= |name| && |name| - from == i - retry
    ensures !MatchesLater(pattern[retry..], name, from + 1)
  {
    forall k | from + 1 <= k <= |name|
      ensures !Matches(pattern[retry..], name[k..])
    {
      if Matches(pattern[retry..], name[k..]) {
        PlainStretch(pattern, retry, i, name, k);
      }
    }
  }

  /** Where the matcher stands: the rest of the pattern against the rest of the name, or a later start for the text of
      the last star. `from` is -1 before the first star. */
  ghost predicate Hope(pattern: string, name: string, i: nat, j: nat, retry: nat, from: int)
    requires i <= |pattern| && j <= |name| && retry <= |pattern|
  {
    Matches(pattern[i..], name[j..]) || (from >= 0 && MatchesLater(pattern[retry..], name, from + 1))
  }

  /** The stretch of the pattern since the last star has no stars and matched as much of the name. */
  ghost predicate Between(pattern: string, name: string, i: nat, j: nat, retry: nat, from: int) {
    && retry <= i <= |pattern| && -1 <= from <= j <= |name|
    && (from >= 0 ==> j - from == i - retry && retry < |pattern| && pattern[retry] != '*'
                      && forall k | retry <= k < i :: pattern[k] != '*')
  }

  lemma HopeStar(pattern: string, name: string, i: nat, j: nat, retry: nat, from: int)
    requires Between(pattern, name, i, j, retry, from) && i < |pattern| && pattern[i] == '*'
    ensures Hope(pattern, name, i, j, retry, from) <==> MatchesLater(pattern[i + 1..], name, j)
    ensures from >= 0 ==> from < j
  {
    StarIs(pattern, name, i, j);
    if from >= 0 {
      EarlierStar(pattern, name, retry, i, from, j);
    }
  }

  lemma HopeChar(pattern: string, name: string, i: nat, j: nat, retry: nat, from: int)
    requires Between(pattern, name, i, j, retry, from) && j < |name| && i < |pattern| && pattern[i] != '*'
    requires Fits(pattern[i], name[j])
    ensures Between(pattern, name, i + 1, j + 1, retry, from)
    ensures Hope(pattern, name, i, j, retry, from) <==> Hope(pattern, name, i + 1, j + 1, retry, from)
  {
    CharIs(pattern, name, i, j);
  }

  lemma HopeMiss(pattern: string, name: string, i: nat, j: nat, retry: nat, from: int)
    requires Between(pattern, name, i, j, retry, from) && j < |name|
    requires i < |pattern| ==> pattern[i] != '*' && !Fits(pattern[i], name[j])
    ensures from < 0 ==> !Hope(pattern, name, i, j, retry, from)
    ensures from >= 0 ==> Between(pattern, name, retry, from + 1, retry, from + 1)
                          && (Hope(pattern, name, i, j, retry, from) <==>
                              Hope(pattern, name, retry, from + 1, retry, from + 1))
  {
    if i < |pattern| {
      CharIs(pattern, name, i, j);
    }
    if from >= 0 {
      LaterIs(pattern[retry..], name, from + 1);
    }
  }

  lemma HopeEnd(pattern: string, name: string, i: nat, retry: nat, from: int)
    requires Between(pattern, name, i, |name|, retry, from)
    ensures Hope(pattern, name, i, |name|, retry, from) <==> Matches(pattern[i..], name[|name|..])
  {
    if from >= 0 {
      NoRoom(pattern, name, retry, i, from);
    }
  }

  /** A star at the end matches whatever is left. */
  lemma LastStar(pattern: string, name: string, j: nat)
    requires j <= |name|
    ensures MatchesLater(pattern[|pattern|..], name, j)
  {
    assert name[|name|..] == [] && Matches(pattern[|pattern|..], name[|name|..]);
  }

  lemma WholeIs(pattern: string, name: string)
    ensures pattern[0..] == pattern && name[0..] == name && Hope(pattern, name, 0, 0, 0, -1) == Matches(pattern, name)
  {
    assert pattern[0..] == pattern && name[0..] == name;
  }

  /** The matcher without recursion. It keeps only the last star, and where its text last began. */
  method WildMatch(pattern: string, name: string) returns (ok: bool)
    ensures ok <==> Matches(pattern, name)
  {
    hide MatchesLater, Fits, Matches, Hope;
    var i, j, retry, from := 0, 0, 0, -1;
    WholeIs(pattern, name);
    while j < |name|
      invariant 0 <= i && 0 <= j && 0 <= retry && Between(pattern, name, i, j, retry, from)
      invariant Matches(pattern, name) <==> Hope(pattern, name, i, j, retry, from)
      decreases |name| - from, |name| - j
    {
      if i < |pattern| && pattern[i] == '*' {
        HopeStar(pattern, name, i, j, retry, from);
        i := i + 1;
        while i < |pattern| && pattern[i] == '*'
          invariant 0 <= i <= |pattern|
          invariant Matches(pattern, name) <==> MatchesLater(pattern[i..], name, j)
        {
          StarsIs(pattern, name, i, j);
          i := i + 1;
        }
        if i == |pattern| {
          LastStar(pattern, name, j);
          return true;
        }
        retry, from := i, j;
        HopeLater(pattern, name, i, j);
      } else if i < |pattern| && Fits(pattern[i], name[j]) {
        HopeChar(pattern, name, i, j, retry, from);
        i, j := i + 1, j + 1;
      } else {
        HopeMiss(pattern, name, i, j, retry, from);
        if from < 0 {
          return false;
        }
        i, from := retry, from + 1;
        j := from;
      }
    }
    HopeEnd(pattern, name, i, retry, from);
    while i < |pattern| && pattern[i] == '*'
      invariant 0 <= i <= |pattern|
      invariant Matches(pattern, name) <==> Matches(pattern[i..], name[|name|..])
    {
      StarEnd(pattern, name, i);
      i := i + 1;
    }
    EndIs(pattern, name, i);
    ok := i == |pattern|;
  }

  lemma HopeLater(pattern: string, name: string, i: nat, j: nat)
    requires i < |pattern| && j <= |name|
    ensures MatchesLater(pattern[i..], name, j) <==> Hope(pattern, name, i, j, i, j)
  {
    LaterIs(pattern[i..], name, j);
  }

  lemma StarEnd(pattern: string, name: string, i: nat)
    requires i < |pattern| && pattern[i] == '*'
    ensures Matches(pattern[i..], name[|name|..]) <==> Matches(pattern[i + 1..], name[|name|..])
  {
    StarIs(pattern, name, i, |name|);
    LaterIs(pattern[i + 1..], name, |name|);
  }

  lemma EndIs(pattern: string, name: string, i: nat)
    requires i <= |pattern| && (i < |pattern| ==> pattern[i] != '*')
    ensures Matches(pattern[i..], name[|name|..]) <==> i == |pattern|
  {
  }

  /** The recursive matcher. */
  method Wildcard(pattern: string, name: string) returns (ok: bool)
    ensures ok <==> Matches(pattern, name)
    decreases |pattern|
  {
    var i, j := 0, 0;
    assert pattern[0..] == pattern && name[0..] == name;
    while i < |pattern|
      invariant 0 <= i <= |pattern| && 0 <= j <= |name|
      invariant Matches(pattern, name) <==> Matches(pattern[i..], name[j..])
    {
      if pattern[i] == '*' {
        StarIs(pattern, name, i, j);
        i := i + 1;
        if i == |pattern| {
          assert name[|name|..] == [] && pattern[i..] == [];
          assert Matches(pattern[i..], name[|name|..]);
          return true;
        }
        while j < |name|
          invariant 0 <= j <= |name|
          invariant Matches(pattern, name) <==> MatchesLater(pattern[i..], name, j)
        {
          LaterIs(pattern[i..], name, j);
          var here := Wildcard(pattern[i..], name[j..]);
          if here {
            return true;
          }
          j := j + 1;
        }
        LaterIs(pattern[i..], name, j);
        ok := Wildcard(pattern[i..], name[j..]);
        return;
      }
      if j == |name| {
        return false;
      }
      CharIs(pattern, name, i, j);
      if pattern[i] != '?' && pattern[i] != name[j] {
        return false;
      }
      i, j := i + 1, j + 1;
    }
    ok := j == |name|;
  }

  // What a match means

  /** Texts for the characters of a pattern: any for a star, one character for any other, and that one unless it is
      '?'. */
  ghost predicate Instance(pattern: string, texts: seq<string>) {
    && |texts| == |pattern|
    && forall k | 0 <= k < |pattern| && pattern[k] != '*' ::
         |texts[k]| == 1 && (pattern[k] == '?' || texts[k] == [pattern[k]])
  }

  function Joined(texts: seq<string>): string {
    if texts == [] then "" else texts[0] + Joined(texts[1..])
  }

  /** A name matches exactly when it is the pattern with some text in the place of every star and some character in the
      place of every question mark. */
  lemma {:induction false} MatchesJoined(pattern: string, name: string)
    ensures Matches(pattern, name) <==> exists texts :: Instance(pattern, texts) && Joined(texts) == name
    decreases |pattern|
  {
    if pattern == [] {
      assert Instance(pattern, []);
    } else {
      forall k | 0 <= k <= |name|
        ensures Matches(pattern[1..], name[k..]) <==>
                exists texts :: Instance(pattern[1..], texts) && Joined(texts) == name[k..]
      {
        MatchesJoined(pattern[1..], name[k..]);
      }
      if Matches(pattern, name) {
        MatchJoins(pattern, name);
      }
      if exists texts :: Instance(pattern, texts) && Joined(texts) == name {
        var texts :| Instance(pattern, texts) && Joined(texts) == name;
        var k := |texts[0]|;
        assert Instance(pattern[1..], texts[1..]);
        assert name[k..] == Joined(texts[1..]) && name[..k] == texts[0];
        assert Matches(pattern[1..], name[k..]);
      }
    }
  }

  lemma MatchJoins(pattern: string, name: string)
    requires pattern != [] && Matches(pattern, name)
    requires forall k | 0 <= k <= |name| && Matches(pattern[1..], name[k..]) ::
               exists texts :: Instance(pattern[1..], texts) && Joined(texts) == name[k..]
    ensures exists texts :: Instance(pattern, texts) && Joined(texts) == name
  {
    hide Instance, Joined;
    if pattern[0] == '*' {
      var k :| 0 <= k <= |name| && Matches(pattern[1..], name[k..]);
      var rest :| Instance(pattern[1..], rest) && Joined(rest) == name[k..];
      JoinFront(pattern, name, k, rest);
    } else {
      assert Matches(pattern[1..], name[1..]);
      var rest :| Instance(pattern[1..], rest) && Joined(rest) == name[1..];
      JoinFront(pattern, name, 1, rest);
    }
  }

  lemma JoinFront(pattern: string, name: string, k: nat, rest: seq<string>)
    requires pattern != [] && k <= |name| && Instance(pattern[1..], rest) && Joined(rest) == name[k..]
    requires pattern[0] == '*' || (k == 1 && Fits(pattern[0], name[0]))
    ensures exists texts :: Instance(pattern, texts) && Joined(texts) == name
  {
    hide Instance;
    InstanceMore(pattern, name[..k], rest);
    var texts := [name[..k]] + rest;
    assert texts[1..] == rest && name[..k] + name[k..] == name;
    assert Joined(texts) == name;
  }

  lemma InstanceMore(pattern: string, first: string, rest: seq<string>)
    requires pattern != [] && Instance(pattern[1..], rest)
    requires pattern[0] == '*' || (|first| == 1 && Fits(pattern[0], first[0]))
    ensures Instance(pattern, [first] + rest)
  {
    var texts := [first] + rest;
    forall j | 0 <= j < |pattern| && pattern[j] != '*'
      ensures |texts[j]| == 1 && (pattern[j] == '?' || texts[j] == [pattern[j]])
    {
      if j > 0 {
        assert pattern[1..][j - 1] == pattern[j] && texts[j] == rest[j - 1];
      }
    }
  }
}
