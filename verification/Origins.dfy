/** The origins a project allows: exact ones, and patterns matched greedily,
    each literal part at its leftmost place. */
module Origins {
  // ----- what a pattern means

  /** A "*" stands for any run of characters without a "/". */
  ghost predicate Glob(pattern: string, s: string)
    decreases |pattern|
  {
    if pattern == "" then s == ""
    else if pattern[0] == '*' then exists k {:trigger Gap(s, k)} :: Gap(s, k) && Glob(pattern[1..], s[k..])
    else s != "" && s[0] == pattern[0] && Glob(pattern[1..], s[1..])
  }

  /** The first k characters of s can be a "*"'s. */
  predicate Gap(s: string, k: int) {
    0 <= k <= |s| && '/' !in s[..k]
  }

  /** A bare "*" allows every origin. */
  ghost predicate Accepts(pattern: string, origin: string) {
    pattern == "*" || Glob(pattern, origin)
  }

  /** The pattern with each "*" replaced by the next of gaps. */
  function Fill(pattern: string, gaps: seq<string>): string {
    if pattern == "" then ""
    else if pattern[0] == '*' && gaps != [] then gaps[0] + Fill(pattern[1..], gaps[1..])
    else [pattern[0]] + Fill(pattern[1..], gaps)
  }

  /** s is the pattern with a text without a "/" for each "*". */
  ghost predicate IsFilling(pattern: string, gaps: seq<string>, s: string) {
    && |gaps| == multiset(pattern)['*']
    && (forall j :: 0 <= j < |gaps| ==> '/' !in gaps[j])
    && s == Fill(pattern, gaps)
  }

  ghost predicate IsFilled(pattern: string, s: string) {
    exists gaps :: IsFilling(pattern, gaps, s)
  }

  lemma {:induction false} GlobIsFilled(pattern: string, s: string)
    ensures Glob(pattern, s) <==> IsFilled(pattern, s)
    decreases |pattern|
  {
    if pattern == "" {
      assert Glob(pattern, s) ==> IsFilling(pattern, [], s);
    } else {
      var rest := pattern[1..];
      assert pattern == [pattern[0]] + rest;
      if pattern[0] == '*' {
        GapIsFilled(rest, s);
      } else {
        if s != "" { GlobIsFilled(rest, s[1..]); }
        if Glob(pattern, s) {
          var gaps :| IsFilling(rest, gaps, s[1..]);
          assert s == [s[0]] + s[1..];
          assert IsFilling(pattern, gaps, s);
        }
        if gaps :| IsFilling(pattern, gaps, s) {
          assert s[1..] == Fill(rest, gaps);
          assert IsFilling(rest, gaps, s[1..]);
        }
      }
    }
  }

  lemma {:induction false} GapIsFilled(rest: string, s: string)
    ensures Glob("*" + rest, s) <==> IsFilled("*" + rest, s)
    decreases |rest| + 1, 0
  {
    var pattern := "*" + rest;
    assert pattern[1..] == rest && pattern[0] == '*';
    assert multiset(pattern) == multiset{'*'} + multiset(rest);
    if Glob(pattern, s) {
      var k :| Gap(s, k) && Glob(rest, s[k..]);
      GlobIsFilled(rest, s[k..]);
      var gaps :| IsFilling(rest, gaps, s[k..]);
      assert ([s[..k]] + gaps)[1..] == gaps && s == s[..k] + s[k..];
      assert IsFilling(pattern, [s[..k]] + gaps, s);
    }
    if gaps :| IsFilling(pattern, gaps, s) {
      var k := |gaps[0]|;
      assert s == gaps[0] + Fill(rest, gaps[1..]);
      assert s[..k] == gaps[0] && s[k..] == Fill(rest, gaps[1..]);
      assert forall j :: 0 <= j < |gaps[1..]| ==> gaps[1..][j] == gaps[j + 1];
      assert IsFilling(rest, gaps[1..], s[k..]);
      GlobIsFilled(rest, s[k..]);
      assert Gap(s, k) && Glob(rest, s[k..]);
    }
  }

  /** What a bare "*" means, and any other pattern. */
  ghost predicate Means(pattern: string, origin: string) {
    pattern == "*" || IsFilled(pattern, origin)
  }

  // ----- the pattern by its literal parts

  /** strings.Split at every "*". */
  function Split(pattern: string): (parts: seq<string>)
    ensures parts != []
  {
    if pattern == "" then [""]
    else
      var rest := Split(pattern[1..]);
      if pattern[0] == '*' then [""] + rest else [[pattern[0]] + rest[0]] + rest[1..]
  }

  /** s is the parts, a gap between any two. */
  ghost predicate Fits(parts: seq<string>, s: string)
    requires parts != []
    decreases |parts|, 0
  {
    if |parts| == 1 then s == parts[0] else parts[0] <= s && FitsAfterGap(parts[1..], s[|parts[0]|..])
  }

  ghost predicate FitsAfterGap(parts: seq<string>, s: string)
    requires parts != []
    decreases |parts|, 1
  {
    exists k {:trigger Gap(s, k)} :: Gap(s, k) && Fits(parts, s[k..])
  }

  lemma {:induction false} GlobIsParts(pattern: string, s: string)
    ensures Glob(pattern, s) <==> Fits(Split(pattern), s)
    decreases |pattern|
  {
    if pattern != "" {
      var rest := pattern[1..];
      var parts := Split(pattern);
      if pattern[0] == '*' {
        assert parts[1..] == Split(rest) && s[0..] == s;
        forall k | Gap(s, k)
          ensures Glob(rest, s[k..]) <==> Fits(Split(rest), s[k..])
        {
          GlobIsParts(rest, s[k..]);
        }
      } else {
        HeadMore(pattern[0], Split(rest), s);
        if s != "" { GlobIsParts(rest, s[1..]); }
      }
    }
  }

  lemma {:induction false} HeadMore(c: char, parts: seq<string>, s: string)
    requires parts != []
    ensures Fits([[c] + parts[0]] + parts[1..], s) <==> s != "" && s[0] == c && Fits(parts, s[1..])
  {
    var more := [[c] + parts[0]] + parts[1..];
    if s != "" {
      assert s == [s[0]] + s[1..];
      assert s[0] == c && parts[0] <= s[1..] <==> [c] + parts[0] <= s;
      assert more[1..] == parts[1..];
      if more[0] <= s { assert s[|more[0]|..] == s[1..][|parts[0]|..]; }
    }
  }

  lemma {:induction false} SplitOne(pattern: string)
    ensures |Split(pattern)| == 1 <==> '*' !in pattern
    ensures '*' !in pattern ==> Split(pattern) == [pattern]
  {
    if pattern != "" {
      assert pattern == [pattern[0]] + pattern[1..];
      SplitOne(pattern[1..]);
    }
  }

  /** An entry without a "*" accepts itself only. */
  lemma {:induction false} ExactAccepts(entry: string, origin: string)
    requires '*' !in entry
    ensures Accepts(entry, origin) <==> entry == origin
  {
    GlobIsParts(entry, origin);
    SplitOne(entry);
    assert entry != "*" by {
      assert "*"[0] == '*';
    }
  }

  // ----- why the leftmost place is as good as any

  ghost predicate At(s: string, i: int, sub: string) {
    0 <= i && i + |sub| <= |s| && s[i..i + |sub|] == sub
  }

  /** A longer gap before what fits fits. */
  lemma {:induction false} FitsLater(parts: seq<string>, s: string, d: nat)
    requires parts != [] && Gap(s, d) && FitsAfterGap(parts, s[d..])
    ensures FitsAfterGap(parts, s)
  {
    var k :| Gap(s[d..], k) && Fits(parts, s[d..][k..]);
    assert s[..d + k] == s[..d] + s[d..][..k];
    assert s[d + k..] == s[d..][k..];
    assert Gap(s, d + k);
  }

  /** Of two places of sub after gaps, the way from the first's end to the
      second's is a gap: a sub with a "/" has only one such place. */
  lemma {:induction false} Between(s: string, sub: string, i: nat, k: nat)
    requires i <= k && Gap(s, k) && At(s, i, sub) && At(s, k, sub)
    ensures Gap(s[i + |sub|..], k - i)
  {
    var t := s[i + |sub|..];
    forall j | 0 <= j < k - i
      ensures t[j] != '/'
    {
      NoSlashBetween(s, sub, i, k, i + |sub| + j);
    }
  }

  lemma {:induction false} NoSlashBetween(s: string, sub: string, i: nat, k: nat, p: nat)
    requires i <= k && Gap(s, k) && At(s, i, sub) && At(s, k, sub)
    requires p < k + |sub|
    requires i < k
    ensures s[p] != '/'
    decreases p
  {
    if p < k {
      assert s[p] == s[..k][p];
    } else {
      // the character of sub at p stands k - i places earlier too
      assert s[p] == s[k..k + |sub|][p - k] == sub[p - k] == s[i..i + |sub|][p - k] == s[i + (p - k)];
      NoSlashBetween(s, sub, i, k, i + (p - k));
    }
  }

  lemma {:induction false} LeftmostIsSound(parts: seq<string>, s: string, i: nat)
    requires |parts| >= 2 && At(s, i, parts[0])
    requires Gap(s, i) && FitsAfterGap(parts[1..], s[i + |parts[0]|..])
    ensures FitsAfterGap(parts, s)
  {
    var sub := parts[0];
    assert s[i..][|sub|..] == s[i + |sub|..];
    assert s[i..][..|sub|] == sub;
    assert Fits(parts, s[i..]);
  }

  /** What fits after a later place of sub fits after an earlier one. */
  lemma {:induction false} EarlierIsAsGood(parts: seq<string>, s: string, sub: string, i: nat, k: nat)
    requires parts != [] && i <= k && Gap(s, k) && At(s, i, sub) && At(s, k, sub)
    requires FitsAfterGap(parts, s[k + |sub|..])
    ensures Gap(s, i) && FitsAfterGap(parts, s[i + |sub|..])
  {
    assert s[..i] == s[..k][..i];
    Between(s, sub, i, k);
    assert s[i + |sub|..][k - i..] == s[k + |sub|..];
    FitsLater(parts, s[i + |sub|..], k - i);
  }

  lemma {:induction false} FirstGap(parts: seq<string>, s: string) returns (k: nat)
    requires |parts| >= 2 && FitsAfterGap(parts, s)
    ensures Gap(s, k) && parts[0] <= s[k..] && k + |parts[0]| <= |s|
    ensures FitsAfterGap(parts[1..], s[k + |parts[0]|..])
  {
    k :| Gap(s, k) && Fits(parts, s[k..]);
    assert s[k..][|parts[0]|..] == s[k + |parts[0]|..];
  }

  lemma {:induction false} LeftmostIsComplete(parts: seq<string>, s: string, i: nat)
    requires |parts| >= 2 && At(s, i, parts[0]) && FitsAfterGap(parts, s)
    requires forall j :: 0 <= j < i ==> !At(s, j, parts[0])
    ensures Gap(s, i) && FitsAfterGap(parts[1..], s[i + |parts[0]|..])
  {
    var k := FirstGap(parts, s);
    PrefixAt(s, k, parts[0]);
    EarlierIsAsGood(parts[1..], s, parts[0], i, k);
  }

  lemma {:induction false} PrefixAt(s: string, k: nat, sub: string)
    requires k <= |s|
    ensures sub <= s[k..] ==> At(s, k, sub)
  {
    if sub <= s[k..] {
      assert s[k..][..|sub|] == s[k..k + |sub|];
    }
  }

  lemma {:induction false} LeftmostIsEnough(parts: seq<string>, s: string, i: nat)
    requires |parts| >= 2 && At(s, i, parts[0])
    requires forall j :: 0 <= j < i ==> !At(s, j, parts[0])
    ensures FitsAfterGap(parts, s) <==> Gap(s, i) && FitsAfterGap(parts[1..], s[i + |parts[0]|..])
  {
    if FitsAfterGap(parts, s) {
      LeftmostIsComplete(parts, s, i);
    } else if Gap(s, i) && FitsAfterGap(parts[1..], s[i + |parts[0]|..]) {
      LeftmostIsSound(parts, s, i);
    }
  }

  lemma {:induction false} NowhereFits(parts: seq<string>, s: string)
    requires parts != [] && forall j :: 0 <= j <= |s| ==> !At(s, j, parts[0])
    ensures !FitsAfterGap(parts, s)
  {
    forall k | Gap(s, k)
      ensures !Fits(parts, s[k..])
    {
      PrefixAt(s, k, parts[0]);
    }
  }

  /** The last part ends the string. */
  lemma {:induction false} LastPart(last: string, s: string)
    ensures FitsAfterGap([last], s) <==> |last| <= |s| && s[|s| - |last|..] == last && Gap(s, |s| - |last|)
  {
    if |last| <= |s| && s[|s| - |last|..] == last && Gap(s, |s| - |last|) {
      assert Fits([last], s[|s| - |last|..]);
    }
    if FitsAfterGap([last], s) {
      var k :| Gap(s, k) && Fits([last], s[k..]);
      assert k == |s| - |last|;
    }
  }

  // ----- the matcher

  /** strings.Index. */
  method Index(s: string, sub: string) returns (i: int)
    ensures i >= 0 ==> At(s, i, sub) && forall j :: 0 <= j < i ==> !At(s, j, sub)
    ensures i < 0 ==> forall j :: 0 <= j <= |s| ==> !At(s, j, sub)
  {
    i := 0;
    while i + |sub| <= |s|
      invariant 0 <= i <= |s| + 1
      invariant forall j :: 0 <= j < i ==> !At(s, j, sub)
    {
      if s[i..i + |sub|] == sub { return; }
      i := i + 1;
    }
    i := -1;
  }

  /** matchOrigin: each literal part but the last at its leftmost place after the
      one before. It accepts exactly the origins the pattern means. */
  method MatchOrigin(pattern: string, origin: string) returns (ok: bool)
    ensures ok <==> Accepts(pattern, origin)
    ensures ok <==> Means(pattern, origin)
  {
    GlobIsFilled(pattern, origin);
    if pattern == "*" { return true; }
    GlobIsParts(pattern, origin);
    SplitOne(pattern);
    var parts := Split(pattern);
    if |parts| == 1 { return pattern == origin; }
    if !(parts[0] <= origin) { return false; }
    var rest := origin[|parts[0]|..];
    for n := 1 to |parts| - 1
      invariant Fits(parts, origin) <==> FitsAfterGap(parts[n..], rest)
    {
      assert parts[n..][1..] == parts[n + 1..];
      var i := Index(rest, parts[n]);
      if i < 0 {
        NowhereFits(parts[n..], rest);
        return false;
      }
      LeftmostIsEnough(parts[n..], rest, i);
      if '/' in rest[..i] { return false; }
      rest := rest[i + |parts[n]|..];
    }
    var last := parts[|parts| - 1];
    assert parts[|parts| - 1..] == [last];
    LastPart(last, rest);
    ok := |last| <= |rest| && rest[|rest| - |last|..] == last && '/' !in rest[..|rest| - |last|];
  }

  function TrimSlash(o: string): string {
    if o != "" && o[|o| - 1] == '/' then o[..|o| - 1] else o
  }

  /** The entry without a "/" at its end. */
  ghost predicate IsTrimmed(entry: string, o: string) {
    entry == o + "/" || (entry == o && (o == "" || o[|o| - 1] != '/'))
  }

  lemma {:induction false} TrimSlashIs(entry: string, o: string)
    ensures IsTrimmed(entry, o) <==> o == TrimSlash(entry)
  {
    if entry != "" && entry[|entry| - 1] == '/' { assert entry == entry[..|entry| - 1] + "/"; }
    if entry == o + "/" { assert entry[..|entry| - 1] == o; }
  }

  /** An entry means the origin; one that is not a bare "*" does. */
  ghost predicate SomeMeans(entries: seq<string>, origin: string) {
    exists i, o :: 0 <= i < |entries| && IsTrimmed(entries[i], o) && Means(o, origin)
  }

  ghost predicate SomeNames(entries: seq<string>, origin: string) {
    exists i, o :: 0 <= i < |entries| && IsTrimmed(entries[i], o) && o != "*" && IsFilled(o, origin)
  }

  lemma {:induction false} AllowedMeans(entries: seq<string>, origin: string)
    ensures Allowed(entries, origin) <==> SomeMeans(entries, origin)
    ensures AllowedByName(entries, origin) <==> SomeNames(entries, origin)
  {
    forall i, o | 0 <= i < |entries|
      ensures IsTrimmed(entries[i], o) <==> o == TrimSlash(entries[i])
      ensures Glob(o, origin) <==> IsFilled(o, origin)
    {
      TrimSlashIs(entries[i], o);
      GlobIsFilled(o, origin);
    }
    if i :| 0 <= i < |entries| && Accepts(TrimSlash(entries[i]), origin) {
      assert IsTrimmed(entries[i], TrimSlash(entries[i])) && Means(TrimSlash(entries[i]), origin);
    }
    if i :| 0 <= i < |entries| && TrimSlash(entries[i]) != "*" && Glob(TrimSlash(entries[i]), origin) {
      assert IsTrimmed(entries[i], TrimSlash(entries[i])) && IsFilled(TrimSlash(entries[i]), origin);
    }
  }

  /** One of a project's entries accepts origin. */
  ghost predicate Allowed(entries: seq<string>, origin: string) {
    exists i :: 0 <= i < |entries| && Accepts(TrimSlash(entries[i]), origin)
  }

  /** One does that is not a bare "*". */
  ghost predicate AllowedByName(entries: seq<string>, origin: string) {
    exists i :: 0 <= i < |entries| && TrimSlash(entries[i]) != "*" && Glob(TrimSlash(entries[i]), origin)
  }

  /** A project's allowed origins, split when the registry is loaded. */
  class OriginSet {
    var exact: set<string>
    var globs: seq<string>

    ghost predicate IsOf(entries: seq<string>)
      reads this
    {
      && (forall o :: o in exact <==> '*' !in o && exists i :: 0 <= i < |entries| && TrimSlash(entries[i]) == o)
      && (forall o :: o in globs <==> '*' in o && exists i :: 0 <= i < |entries| && TrimSlash(entries[i]) == o)
    }

    constructor (entries: seq<string>)
      ensures IsOf(entries)
    {
      exact, globs := {}, [];
      new;
      for n := 0 to |entries|
        invariant forall o :: o in exact <==> '*' !in o && exists i :: 0 <= i < n && TrimSlash(entries[i]) == o
        invariant forall o :: o in globs <==> '*' in o && exists i :: 0 <= i < n && TrimSlash(entries[i]) == o
      {
        var o := TrimSlash(entries[n]);
        if '*' in o {
          globs := globs + [o];
        } else {
          exact := exact + {o};
        }
      }
    }

    method Match(ghost entries: seq<string>, origin: string) returns (ok: bool)
      requires IsOf(entries)
      ensures ok <==> SomeMeans(entries, origin)
    {
      AllowedMeans(entries, origin);
      if origin in exact {
        ExactAccepts(origin, origin);
        return true;
      }
      for n := 0 to |globs|
        invariant forall j :: 0 <= j < n ==> !Accepts(globs[j], origin)
      {
        var m := MatchOrigin(globs[n], origin);
        if m {
          assert globs[n] in globs;
          return true;
        }
      }
      forall i | 0 <= i < |entries|
        ensures !Accepts(TrimSlash(entries[i]), origin)
      {
        var o := TrimSlash(entries[i]);
        if '*' in o {
          assert o in globs;
        } else {
          ExactAccepts(o, origin);
          assert o in exact;
        }
      }
      ok := false;
    }

    /** RedirectAllowed, of a target's origin: a bare "*" admits only the page
        the post came from. */
    method RedirectAllowed(ghost entries: seq<string>, origin: string, reqOrigin: string) returns (ok: bool)
      requires IsOf(entries)
      ensures ok <==> SomeNames(entries, origin) || (SomeMeans(entries, origin) && IsTrimmed(reqOrigin, origin))
    {
      AllowedMeans(entries, origin);
      TrimSlashIs(reqOrigin, origin);
      if origin in exact {
        ExactAccepts(origin, origin);
        return true;
      }
      var bare := false;
      for n := 0 to |globs|
        invariant forall j :: 0 <= j < n ==> globs[j] == "*" || !Accepts(globs[j], origin)
        invariant bare <==> exists j :: 0 <= j < n && globs[j] == "*"
      {
        if globs[n] == "*" {
          bare := true;
          continue;
        }
        var m := MatchOrigin(globs[n], origin);
        if m {
          assert globs[n] in globs;
          return true;
        }
      }
      forall i | 0 <= i < |entries|
        ensures var o := TrimSlash(entries[i]); o != "*" ==> !Accepts(o, origin)
      {
        var o := TrimSlash(entries[i]);
        if '*' in o {
          assert o in globs;
        } else {
          ExactAccepts(o, origin);
          assert o in exact;
        }
      }
      assert "*"[0] == '*';
      assert bare <==> "*" in globs;
      assert bare <==> exists i :: 0 <= i < |entries| && TrimSlash(entries[i]) == "*";
      ok := bare && origin == TrimSlash(reqOrigin);
    }
  }
}
