/**
  The string operations of Python that the agents rely on: strip, lower and
  upper (restricted to ASCII letters), prefix and substring tests, find,
  split on one character and join.
 */
module Text {
  import opened Outcomes

  /** The characters for which Python's str.isspace() holds: these are what strip() removes and what \s matches. */
  predicate IsSpace(c: char) {
    || ('\t' <= c <= '\r')
    || ('\U{1c}' <= c <= '\U{1f}')
    || c == ' '
    || c == '\U{85}' || c == '\U{a0}' || c == '\U{1680}'
    || ('\U{2000}' <= c <= '\U{200a}')
    || c == '\U{2028}' || c == '\U{2029}' || c == '\U{202f}' || c == '\U{205f}' || c == '\U{3000}'
  }

  /** `not s or not s.strip()`: empty or made of whitespace only. */
  predicate IsBlank(s: string) {
    forall i | 0 <= i < |s| :: IsSpace(s[i])
  }

  predicate IsBreak(c: char) {
    c == '\n' || c == '\r'
  }

  /** The two character sets the source strips: all whitespace (strip()) and line breaks (strip('\n\r')). */
  datatype CharClass = Spaces | Breaks

  predicate In(k: CharClass, c: char) {
    match k
    case Spaces => IsSpace(c)
    case Breaks => IsBreak(c)
  }

  function TrimStart(s: string, k: CharClass): (r: string)
    ensures |r| <= |s| && r == s[|s| - |r|..]
    ensures forall i | 0 <= i < |s| - |r| :: In(k, s[i])
    ensures r == [] || !In(k, r[0])
  {
    if |s| > 0 && In(k, s[0]) then TrimStart(s[1..], k) else s
  }

  function TrimEnd(s: string, k: CharClass): (r: string)
    ensures |r| <= |s| && r == s[..|r|]
    ensures forall i | |r| <= i < |s| :: In(k, s[i])
    ensures r == [] || !In(k, r[|r| - 1])
  {
    if |s| > 0 && In(k, s[|s| - 1]) then TrimEnd(s[..|s| - 1], k) else s
  }

  /** Python's s.strip(chars) for the given class. */
  function Trim(s: string, k: CharClass): string {
    TrimEnd(TrimStart(s, k), k)
  }

  /** Python's s.strip(). */
  function Strip(s: string): string {
    Trim(s, Spaces)
  }

  /** Neither end of s is a character of class k. */
  predicate IsTrimmed(s: string, k: CharClass) {
    s == [] || (!In(k, s[0]) && !In(k, s[|s| - 1]))
  }

  predicate IsStripped(s: string) {
    IsTrimmed(s, Spaces)
  }

  /** The result of a trim is a piece of its input with no class-k character at either end. */
  lemma TrimShape(s: string, k: CharClass)
    ensures IsTrimmed(Trim(s, k), k)
    ensures exists i :: OccursAt(s, Trim(s, k), i)
  {
    TrimEnds(s, k);
    TrimOffset(s, k);
  }

  lemma TrimEnds(s: string, k: CharClass)
    ensures IsTrimmed(Trim(s, k), k)
  {
    var a := TrimStart(s, k);
    var r := TrimEnd(a, k);
    if r != [] {
      assert r[0] == a[0];
    }
  }

  /** The trim starts where the leading class-k characters end. */
  lemma TrimOffset(s: string, k: CharClass)
    ensures OccursAt(s, Trim(s, k), |s| - |TrimStart(s, k)|)
  {
    OccursInSuffix(s, TrimStart(s, k), Trim(s, k));
  }

  /** A prefix of a suffix of s occurs in s where the suffix starts. */
  lemma OccursInSuffix(s: string, a: string, r: string)
    requires |a| <= |s| && a == s[|s| - |a|..]
    requires |r| <= |a| && r == a[..|r|]
    ensures OccursAt(s, r, |s| - |a|)
  {
    var i := |s| - |a|;
    assert s[i..i + |r|] == s[i..][..|r|];
  }

  /** A trimmed string is its own trim. */
  lemma {:induction false} TrimOfTrimmed(s: string, k: CharClass)
    requires IsTrimmed(s, k)
    ensures Trim(s, k) == s
  {
    assert TrimStart(s, k) == s;
    if s != [] {
      assert TrimEnd(s, k) == s;
    }
  }

  /** Trim is idempotent. */
  lemma TrimIdempotent(s: string, k: CharClass)
    ensures Trim(Trim(s, k), k) == Trim(s, k)
  {
    TrimShape(s, k);
    TrimOfTrimmed(Trim(s, k), k);
  }

  /** Stripping gives "" exactly when the input is blank. */
  lemma StripEmptyIffBlank(s: string)
    ensures Strip(s) == "" <==> IsBlank(s)
  {
    var a := TrimStart(s, Spaces);
    if a != [] {
      assert a[0] == s[|s| - |a|];
      assert !IsSpace(s[|s| - |a|]);
      assert TrimEnd(a, Spaces) != [];
    } else {
      assert forall i | 0 <= i < |s| :: IsSpace(s[i]);
    }
  }

  /** A non-blank string strips to a non-blank string. */
  lemma StripNonBlank(s: string)
    requires !IsBlank(s)
    ensures !IsBlank(Strip(s)) && Strip(s) != ""
  {
    StripEmptyIffBlank(s);
    TrimShape(s, Spaces);
  }

  /** Leading characters of class k are dropped by TrimStart and nothing else. */
  lemma {:induction false} TrimStartSkips(p: string, q: string, k: CharClass)
    requires forall i | 0 <= i < |p| :: In(k, p[i])
    requires q == [] || !In(k, q[0])
    ensures TrimStart(p + q, k) == q
  {
    if p != [] {
      assert (p + q)[1..] == p[1..] + q;
      TrimStartSkips(p[1..], q, k);
    } else {
      assert p + q == q;
    }
  }

  /** Trailing characters of class k are dropped by TrimEnd and nothing else. */
  lemma {:induction false} TrimEndSkips(q: string, p: string, k: CharClass)
    requires forall i | 0 <= i < |p| :: In(k, p[i])
    requires q == [] || !In(k, q[|q| - 1])
    ensures TrimEnd(q + p, k) == q
  {
    if p != [] {
      assert (q + p)[..|q + p| - 1] == q + p[..|p| - 1];
      TrimEndSkips(q, p[..|p| - 1], k);
    } else {
      assert q + p == q;
    }
  }

  /** Trimming removes exactly the class-k padding around a trimmed core. */
  lemma TrimAround(p: string, s: string, q: string, k: CharClass)
    requires forall i | 0 <= i < |p| :: In(k, p[i])
    requires forall i | 0 <= i < |q| :: In(k, q[i])
    requires s != [] && IsTrimmed(s, k)
    ensures Trim(p + s + q, k) == s
  {
    assert p + s + q == p + (s + q);
    TrimStartSkips(p, s + q, k);
    TrimEndSkips(s, q, k);
  }

  /** Every character of s is of class k. */
  predicate AllIn(k: CharClass, s: string) {
    forall i | 0 <= i < |s| :: In(k, s[i])
  }

  /** A string made only of class-k characters trims to nothing. */
  lemma TrimAll(s: string, k: CharClass)
    requires AllIn(k, s)
    ensures Trim(s, k) == []
  {
  }

  /** Two class-k strings make a class-k string. */
  lemma PaddingJoins(p: string, q: string, k: CharClass)
    requires AllIn(k, p) && AllIn(k, q)
    ensures AllIn(k, p + q)
  {
    forall i | 0 <= i < |p + q|
      ensures In(k, (p + q)[i])
    {
      if i < |p| {
        assert (p + q)[i] == p[i];
      } else {
        assert (p + q)[i] == q[i - |p|];
      }
    }
  }

  /** A class-k prefix makes no difference to TrimStart. */
  lemma {:induction false} TrimStartPrefix(p: string, y: string, k: CharClass)
    requires AllIn(k, p)
    ensures TrimStart(p + y, k) == TrimStart(y, k)
    decreases |p|
  {
    if p != [] {
      assert (p + y)[1..] == p[1..] + y;
      assert (p + y)[0] == p[0];
      TrimStartPrefix(p[1..], y, k);
    } else {
      assert p + y == y;
    }
  }

  /** What follows a string with something left after TrimStart passes through TrimStart. */
  lemma {:induction false} TrimStartSuffix(s: string, q: string, k: CharClass)
    requires TrimStart(s, k) != []
    ensures TrimStart(s + q, k) == TrimStart(s, k) + q
    decreases |s|
  {
    assert (s + q)[0] == s[0];
    if In(k, s[0]) {
      assert (s + q)[1..] == s[1..] + q;
      TrimStartSuffix(s[1..], q, k);
    }
  }

  /** A class-k suffix makes no difference to TrimEnd. */
  lemma {:induction false} TrimEndSuffix(a: string, q: string, k: CharClass)
    requires AllIn(k, q)
    ensures TrimEnd(a + q, k) == TrimEnd(a, k)
    decreases |q|
  {
    if q != [] {
      var n := |a + q|;
      assert (a + q)[..n - 1] == a + q[..|q| - 1];
      assert (a + q)[n - 1] == q[|q| - 1];
      TrimEndSuffix(a, q[..|q| - 1], k);
    } else {
      assert a + q == a;
    }
  }

  /** Class-k padding on either side of s makes no difference to its trim. */
  lemma TrimPadded(p: string, s: string, q: string, k: CharClass)
    requires AllIn(k, p) && AllIn(k, q)
    ensures Trim(p + s + q, k) == Trim(s, k)
  {
    assert p + s + q == p + (s + q);
    TrimStartPrefix(p, s + q, k);
    if TrimStart(s, k) != [] {
      TrimStartSuffix(s, q, k);
      TrimEndSuffix(TrimStart(s, k), q, k);
    } else {
      assert AllIn(k, s);
      PaddingJoins(s, q, k);
      TrimAll(s + q, k);
    }
  }

  /** Whatever follows a, TrimEnd of the whole still starts with TrimEnd of a. */
  lemma {:induction false} TrimEndPrefix(a: string, y: string, k: CharClass)
    ensures StartsWith(TrimEnd(a + y, k), TrimEnd(a, k))
    decreases |y|
  {
    if y == [] {
      assert a + y == a;
    } else if In(k, y[|y| - 1]) {
      var n := |a + y|;
      assert (a + y)[..n - 1] == a + y[..|y| - 1];
      TrimEndPrefix(a, y[..|y| - 1], k);
    } else {
      assert (a + y)[..|TrimEnd(a, k)|] == a[..|TrimEnd(a, k)|];
    }
  }

  /** Stripping a text that starts with a non-blank x gives a text that starts with x stripped. */
  lemma StripPrefix(x: string, y: string)
    requires !IsBlank(x)
    ensures StartsWith(Strip(x + y), Strip(x))
  {
    TrimStartSuffix(x, y, Spaces);
    TrimEndPrefix(TrimStart(x, Spaces), y, Spaces);
  }

  function LowerChar(c: char): char {
    if 'A' <= c <= 'Z' then (c as int + 32) as char else c
  }

  function UpperChar(c: char): char {
    if 'a' <= c <= 'z' then (c as int - 32) as char else c
  }

  /** Python's s.lower(), for ASCII letters. */
  function Lower(s: string): (r: string)
    ensures |r| == |s|
    ensures forall i | 0 <= i < |s| :: r[i] == LowerChar(s[i])
  {
    seq(|s|, i requires 0 <= i < |s| => LowerChar(s[i]))
  }

  /** Python's s.upper(), for ASCII letters. */
  function Upper(s: string): (r: string)
    ensures |r| == |s|
    ensures forall i | 0 <= i < |s| :: r[i] == UpperChar(s[i])
  {
    seq(|s|, i requires 0 <= i < |s| => UpperChar(s[i]))
  }

  /** No ASCII upper-case letter occurs in s. */
  predicate IsLowerCase(s: string) {
    forall i | 0 <= i < |s| :: !('A' <= s[i] <= 'Z')
  }

  lemma LowerIsLowerCase(s: string)
    ensures IsLowerCase(Lower(s))
    ensures Lower(Lower(s)) == Lower(s)
  {
  }

  /** Lower-casing leaves a lower-case text as it is. */
  lemma LowerOfLowerCase(s: string)
    requires IsLowerCase(s)
    ensures Lower(s) == s
  {
  }

  predicate StartsWith(s: string, p: string) {
    |p| <= |s| && s[..|p|] == p
  }

  predicate OccursAt(s: string, p: string, i: int) {
    0 <= i && i + |p| <= |s| && s[i..i + |p|] == p
  }

  /** Python's `p in s`. */
  predicate Contains(s: string, p: string) {
    exists i | 0 <= i <= |s| - |p| :: OccursAt(s, p, i)
  }

  /** A string occurs in any concatenation it is the middle of. */
  lemma InfixContained(a: string, p: string, c: string)
    ensures Contains(a + p + c, p)
  {
    assert (a + p + c)[|a|..|a| + |p|] == p;
    assert OccursAt(a + p + c, p, |a|);
  }

  /** `any(p in s for p in ps)`. */
  predicate ContainsAny(s: string, ps: seq<string>) {
    exists j | 0 <= j < |ps| :: Contains(s, ps[j])
  }

  /** The first occurrence of p in s at or after `from`. */
  function FindFrom(s: string, p: string, from: nat): (r: Option<nat>)
    decreases |s| - from
    ensures r.Some? ==> from <= r.value && OccursAt(s, p, r.value)
    ensures r.Some? ==> forall j | from <= j < r.value :: !OccursAt(s, p, j)
    ensures r.None? ==> forall j | from <= j :: !OccursAt(s, p, j)
  {
    if from + |p| > |s| then None
    else if OccursAt(s, p, from) then Some(from)
    else FindFrom(s, p, from + 1)
  }

  /** Python's s.find(c) for one character: the first index holding c. */
  function IndexOf(s: string, c: char): (r: Option<nat>)
    ensures r.Some? ==> r.value < |s| && s[r.value] == c && c !in s[..r.value]
    ensures r.None? <==> c !in s
  {
    if |s| == 0 then None
    else if s[0] == c then Some(0)
    else match IndexOf(s[1..], c)
      case None => None
      case Some(i) => assert s[..i + 1] == [s[0]] + s[1..][..i]; Some(i + 1)
  }

  /** The first c in p + [c] + rest is the one after p, when p holds none. */
  lemma IndexOfAfter(p: string, c: char, rest: string)
    requires c !in p
    ensures IndexOf(p + [c] + rest, c) == Some(|p|)
  {
    var s := p + [c] + rest;
    assert s[|p|] == c;
    assert forall j | |p| < j <= |s| :: s[..j][|p|] == c;
  }

  /** Python's s.rfind(c) for one character: the last index holding c. */
  function LastIndexOf(s: string, c: char): (r: Option<nat>)
    ensures r.Some? ==> r.value < |s| && s[r.value] == c && c !in s[r.value + 1..]
    ensures r.None? <==> c !in s
  {
    if |s| == 0 then None
    else if s[|s| - 1] == c then Some(|s| - 1)
    else
      assert s == s[..|s| - 1] + [s[|s| - 1]];
      LastIndexOf(s[..|s| - 1], c)
  }

  /** Python's s.split(sep) for a one-character separator. */
  function Split(s: string, sep: char): (parts: seq<string>)
    ensures |parts| >= 1
    ensures forall i | 0 <= i < |parts| :: sep !in parts[i]
    decreases |s|
  {
    match IndexOf(s, sep)
    case None => [s]
    case Some(i) => [s[..i]] + Split(s[i + 1..], sep)
  }

  /** Python's sep.join(xs). */
  function Join(sep: string, xs: seq<string>): string
    decreases |xs|
  {
    if |xs| == 0 then ""
    else if |xs| == 1 then xs[0]
    else xs[0] + sep + Join(sep, xs[1..])
  }

  /** Joining the pieces of a split with the separator gives back the original string. */
  lemma {:induction false} JoinSplit(s: string, sep: char)
    ensures Join([sep], Split(s, sep)) == s
    decreases |s|
  {
    match IndexOf(s, sep)
    case None =>
    case Some(i) =>
      var rest := Split(s[i + 1..], sep);
      JoinSplit(s[i + 1..], sep);
      assert Split(s, sep) == [s[..i]] + rest;
      assert ([s[..i]] + rest)[1..] == rest;
      assert s == s[..i] + [sep] + s[i + 1..];
  }

  /** Splitting a join at a separator that no piece holds gives the pieces back. */
  lemma {:induction false} SplitJoin(parts: seq<string>, sep: char)
    requires |parts| >= 1
    requires forall k | 0 <= k < |parts| :: sep !in parts[k]
    ensures Split(Join([sep], parts), sep) == parts
    decreases |parts|
  {
    if |parts| > 1 {
      var rest := Join([sep], parts[1..]);
      assert Join([sep], parts) == parts[0] + [sep] + rest;
      SplitAfter(parts[0], sep, rest);
      SplitJoin(parts[1..], sep);
      assert parts == [parts[0]] + parts[1..];
    } else {
      assert Join([sep], parts) == parts[0];
    }
  }

  /** Splitting p + [c] + rest, where p holds no c, gives p and then the pieces of rest. */
  lemma SplitAfter(p: string, c: char, rest: string)
    requires c !in p
    ensures Split(p + [c] + rest, c) == [p] + Split(rest, c)
  {
    var s := p + [c] + rest;
    IndexOfAfter(p, c, rest);
    assert s[..|p|] == p;
    assert s[|p| + 1..] == rest;
  }

  /** Join distributes over concatenation of two non-empty lists. */
  lemma {:induction false} JoinAppend(sep: string, xs: seq<string>, ys: seq<string>)
    requires |xs| > 0 && |ys| > 0
    ensures Join(sep, xs + ys) == Join(sep, xs) + sep + Join(sep, ys)
    decreases |xs|
  {
    if |xs| == 1 {
      assert (xs + ys)[1..] == ys;
    } else {
      assert (xs + ys)[1..] == xs[1..] + ys;
      JoinAppend(sep, xs[1..], ys);
    }
  }
}
