/** Python's `str.split()` with no separator and `' '.join(...)`, over strings. */
module PyString {

  /** Python 2.7's `unicode.isspace` for one character: the whitespace of the
      Unicode 5.2 database, which still counts U+180E MONGOLIAN VOWEL SEPARATOR. */
  predicate IsSpace(c: char) {
    var n := c as int;
    || (9 <= n <= 13)
    || (28 <= n <= 32)
    || n == 0x85
    || n == 0xA0
    || n == 0x1680
    || n == 0x180E
    || (0x2000 <= n <= 0x200A)
    || n == 0x2028
    || n == 0x2029
    || n == 0x202F
    || n == 0x205F
    || n == 0x3000
  }

  /** A token as `split()` produces it: non-empty and free of whitespace. */
  predicate IsToken(t: string) {
    |t| > 0 && forall i :: 0 <= i < |t| ==> !IsSpace(t[i])
  }

  predicate AllTokens(ts: seq<string>) {
    forall i :: 0 <= i < |ts| ==> IsToken(ts[i])
  }

  /** No whitespace other than single spaces, none leading, none trailing and
      no two next to each other. */
  predicate Normalised(s: string) {
    && (forall i :: 0 <= i < |s| && IsSpace(s[i]) ==> s[i] == ' ')
    && (|s| > 0 ==> !IsSpace(s[0]) && !IsSpace(s[|s| - 1]))
    && (forall i :: 0 < i < |s| && IsSpace(s[i]) ==> !IsSpace(s[i - 1]))
  }

  /** The length of the run of non-whitespace characters that starts `s`. */
  function WordLength(s: string): (n: nat)
    ensures n <= |s|
    ensures forall i :: 0 <= i < n ==> !IsSpace(s[i])
    ensures n < |s| ==> IsSpace(s[n])
  {
    if s == [] || IsSpace(s[0]) then 0 else 1 + WordLength(s[1..])
  }

  /** `s.split()`: the maximal runs of non-whitespace characters of `s`, in order. */
  function Split(s: string): (ts: seq<string>)
    ensures AllTokens(ts)
    decreases |s|
  {
    if s == [] then []
    else if IsSpace(s[0]) then Split(s[1..])
    else
      var n := WordLength(s);
      [s[..n]] + Split(s[n..])
  }

  /** `' '.join(ts)`: the items separated by single spaces. */
  function Join(ts: seq<string>): string {
    if ts == [] then ""
    else if |ts| == 1 then ts[0]
    else ts[0] + " " + Join(ts[1..])
  }

  /** The characters of `s` that are not whitespace, in order. */
  function NonSpace(s: string): string {
    if s == [] then ""
    else (if IsSpace(s[0]) then "" else [s[0]]) + NonSpace(s[1..])
  }

  /** `''.join(ts)`. */
  function Concat(ts: seq<string>): string {
    if ts == [] then "" else ts[0] + Concat(ts[1..])
  }

  /** Any `n` with the three properties of `WordLength(s)` is `WordLength(s)`. */
  lemma WordLengthExact(s: string, n: nat)
    requires n <= |s|
    requires forall i :: 0 <= i < n ==> !IsSpace(s[i])
    requires n < |s| ==> IsSpace(s[n])
    ensures WordLength(s) == n
  {
  }

  /** A word of `a` that ends before `b` stays a word of `a + b` when `b` starts with whitespace. */
  lemma WordLengthOfPrefix(a: string, b: string)
    requires b != [] && IsSpace(b[0])
    ensures WordLength(a + b) == WordLength(a)
  {
    var n := WordLength(a);
    assert (a + b)[n] == if n < |a| then a[n] else b[0];
    WordLengthExact(a + b, n);
  }

  /** A token splits into itself. */
  lemma SplitToken(t: string)
    requires IsToken(t)
    ensures Split(t) == [t]
  {
    WordLengthExact(t, |t|);
    assert t[..|t|] == t;
    assert t[|t|..] == [];
  }

  /** Splitting around one whitespace character splits each side on its own. */
  lemma {:induction false} SplitAroundSpace(a: string, c: char, b: string)
    requires IsSpace(c)
    ensures Split(a + [c] + b) == Split(a) + Split(b)
    decreases |a|
  {
    var s := a + [c] + b;
    if a == [] {
      assert s[1..] == b;
    } else if IsSpace(a[0]) {
      assert s[1..] == a[1..] + [c] + b;
      SplitAroundSpace(a[1..], c, b);
    } else {
      var n := WordLength(a);
      var rest := a[n..];
      assert s[0] == a[0];
      WordLengthOfPrefix(a, [c] + b);
      assert s == a + ([c] + b);
      assert s[..n] == a[..n];
      assert s[n..] == rest + [c] + b;
      SplitAroundSpace(rest, c, b);
      assert Split(a) == [a[..n]] + Split(rest);
    }
  }

  /** Round trip: splitting the space-joined tokens gives the tokens back. */
  lemma {:induction false} SplitJoin(ts: seq<string>)
    requires AllTokens(ts)
    ensures Split(Join(ts)) == ts
    decreases |ts|
  {
    if |ts| == 1 {
      SplitToken(ts[0]);
    } else if |ts| > 1 {
      assert IsToken(ts[0]);
      assert ts[0] + " " + Join(ts[1..]) == ts[0] + [' '] + Join(ts[1..]);
      SplitAroundSpace(ts[0], ' ', Join(ts[1..]));
      SplitToken(ts[0]);
      SplitJoin(ts[1..]);
      assert [ts[0]] + ts[1..] == ts;
    }
  }

  /** Joining with one more item puts a single space before it. */
  lemma {:induction false} JoinAppend(ts: seq<string>, t: string)
    requires ts != []
    ensures Join(ts + [t]) == Join(ts) + " " + t
    decreases |ts|
  {
    if |ts| == 1 {
      assert ts + [t] == [ts[0], t];
      assert [ts[0], t][1..] == [t];
    } else {
      assert (ts + [t])[0] == ts[0];
      assert (ts + [t])[1..] == ts[1..] + [t];
      JoinAppend(ts[1..], t);
    }
  }

  /** Splitting tokens joined with one more string gives the tokens, then that
      string's own tokens. */
  lemma SplitJoinAppend(ts: seq<string>, t: string)
    requires AllTokens(ts)
    ensures Split(Join(ts + [t])) == ts + Split(t)
  {
    if ts == [] {
      assert ts + [t] == [t];
    } else {
      JoinAppend(ts, t);
      assert Join(ts) + " " + t == Join(ts) + [' '] + t;
      SplitAroundSpace(Join(ts), ' ', t);
      SplitJoin(ts);
    }
  }

  /** Two normalised non-empty strings joined by one space give a normalised string. */
  lemma NormalisedAroundSpace(a: string, b: string)
    requires Normalised(a) && a != [] && Normalised(b) && b != []
    ensures Normalised(a + " " + b)
  {
    var s := a + " " + b;
    forall i | 0 <= i < |s| && IsSpace(s[i])
      ensures s[i] == ' '
    {
      if i < |a| {
        assert s[i] == a[i];
      } else if i > |a| {
        assert s[i] == b[i - |a| - 1];
      }
    }
    assert s[0] == a[0];
    assert s[|s| - 1] == b[|b| - 1];
    forall i | 0 < i < |s| && IsSpace(s[i])
      ensures !IsSpace(s[i - 1])
    {
      if i < |a| {
        assert s[i] == a[i] && s[i - 1] == a[i - 1];
      } else if i == |a| {
        assert s[i - 1] == a[|a| - 1];
      } else if i > |a| + 1 {
        var j := i - |a| - 1;
        assert s[i] == b[j] && s[i - 1] == b[j - 1];
      }
    }
  }

  /** Joining tokens gives a string with no leading, trailing or doubled spaces. */
  lemma {:induction false} JoinNormalised(ts: seq<string>)
    requires AllTokens(ts)
    ensures Normalised(Join(ts))
    ensures ts != [] ==> |Join(ts)| > 0
    decreases |ts|
  {
    if |ts| == 1 {
      assert IsToken(ts[0]);
    } else if |ts| > 1 {
      assert IsToken(ts[0]);
      JoinNormalised(ts[1..]);
      NormalisedAroundSpace(ts[0], Join(ts[1..]));
    }
  }

  /** Tokens joined with one more normalised non-empty string give a normalised string. */
  lemma JoinAppendNormalised(ts: seq<string>, t: string)
    requires AllTokens(ts) && Normalised(t) && t != []
    ensures Normalised(Join(ts + [t]))
  {
    if ts == [] {
      assert ts + [t] == [t];
    } else {
      JoinAppend(ts, t);
      JoinNormalised(ts);
      NormalisedAroundSpace(Join(ts), t);
    }
  }

  lemma {:induction false} NonSpaceAppend(a: string, b: string)
    ensures NonSpace(a + b) == NonSpace(a) + NonSpace(b)
    decreases |a|
  {
    if a != [] {
      assert (a + b)[1..] == a[1..] + b;
      NonSpaceAppend(a[1..], b);
    } else {
      assert a + b == b;
    }
  }

  lemma {:induction false} NonSpaceOfWord(s: string)
    requires forall i :: 0 <= i < |s| ==> !IsSpace(s[i])
    ensures NonSpace(s) == s
    decreases |s|
  {
    if s != [] {
      NonSpaceOfWord(s[1..]);
    }
  }

  /** `split()` keeps every non-whitespace character, in order, and drops only whitespace. */
  lemma {:induction false} SplitKeepsCharacters(s: string)
    ensures Concat(Split(s)) == NonSpace(s)
    decreases |s|
  {
    if s == [] {
    } else if IsSpace(s[0]) {
      SplitKeepsCharacters(s[1..]);
    } else {
      var n := WordLength(s);
      assert s == s[..n] + s[n..];
      NonSpaceAppend(s[..n], s[n..]);
      NonSpaceOfWord(s[..n]);
      SplitKeepsCharacters(s[n..]);
      var ts := [s[..n]] + Split(s[n..]);
      assert ts[0] == s[..n] && ts[1..] == Split(s[n..]);
    }
  }

  /** Splitting is idempotent through a join: a rejoined split string splits the same. */
  lemma SplitJoinSplit(s: string)
    ensures Split(Join(Split(s))) == Split(s)
    ensures Normalised(Join(Split(s)))
  {
    SplitJoin(Split(s));
    JoinNormalised(Split(s));
  }
}
