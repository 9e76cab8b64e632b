/** String helpers shared by the backend and the widget: optional values,
    whitespace trimming (Python's str.strip and JavaScript's String.trim),
    literal substring replacement (Python's str.replace) and splitting
    on a separator character (Python's str.split). */
module Text {

  datatype Option<T> = None | Some(value: T)

  /** The characters for which Python's str.isspace holds; str.strip() with
      no argument removes exactly these from both ends. */
  const PyWhitespace: set<char> := {
    '\t', '\n', '\U{000B}', '\U{000C}', '\r',
    '\U{001C}', '\U{001D}', '\U{001E}', '\U{001F}', ' ',
    '\U{0085}', '\U{00A0}', '\U{1680}',
    '\U{2000}', '\U{2001}', '\U{2002}', '\U{2003}', '\U{2004}', '\U{2005}',
    '\U{2006}', '\U{2007}', '\U{2008}', '\U{2009}', '\U{200A}',
    '\U{2028}', '\U{2029}', '\U{202F}', '\U{205F}', '\U{3000}'
  }

  /** WhiteSpace and LineTerminator of ECMAScript, which String.prototype.trim
      removes from both ends. It has U+FEFF, which Python does not strip, and
      lacks U+001C..U+001F and U+0085, which Python does strip. */
  const JsWhitespace: set<char> := {
    '\t', '\n', '\U{000B}', '\U{000C}', '\r', ' ',
    '\U{00A0}', '\U{1680}',
    '\U{2000}', '\U{2001}', '\U{2002}', '\U{2003}', '\U{2004}', '\U{2005}',
    '\U{2006}', '\U{2007}', '\U{2008}', '\U{2009}', '\U{200A}',
    '\U{2028}', '\U{2029}', '\U{202F}', '\U{205F}', '\U{3000}', '\U{FEFF}'
  }

  /** Neither end of `s` is a character of `ws`. */
  predicate IsTrimmed(s: string, ws: set<char>) {
    s == [] || (s[0] !in ws && s[|s| - 1] !in ws)
  }

  /** `s` without its leading characters from `ws`. */
  function TrimStart(s: string, ws: set<char>): (r: string)
    ensures |r| <= |s| && r == s[|s| - |r|..]
    ensures forall i :: 0 <= i < |s| - |r| ==> s[i] in ws
    ensures r == [] || r[0] !in ws
    decreases |s|
  {
    if |s| > 0 && s[0] in ws then TrimStart(s[1..], ws) else s
  }

  /** `s` without its trailing characters from `ws`. */
  function TrimEnd(s: string, ws: set<char>): (r: string)
    ensures |r| <= |s| && r == s[..|r|]
    ensures forall i :: |r| <= i < |s| ==> s[i] in ws
    ensures r == [] || r[|r| - 1] !in ws
    decreases |s|
  {
    if |s| > 0 && s[|s| - 1] in ws then TrimEnd(s[..|s| - 1], ws) else s
  }

  /** Both ends trimmed: Python's `strip()` with ws = PyWhitespace, and
      JavaScript's `trim()` with ws = JsWhitespace. The result is the slice
      of `s` that starts after its leading run of `ws` characters and ends
      before its trailing run. */
  function Trim(s: string, ws: set<char>): (r: string)
    ensures IsTrimmed(r, ws)
    ensures |r| <= |s|
    ensures forall c :: c in r ==> c in s
    ensures var i := |s| - |TrimStart(s, ws)|;
      i + |r| <= |s| && r == s[i..i + |r|] &&
      (forall k :: 0 <= k < i ==> s[k] in ws) &&
      (forall k :: i + |r| <= k < |s| ==> s[k] in ws)
  {
    var t := TrimStart(s, ws);
    var r := TrimEnd(t, ws);
    PrefixOfSuffix(s, |s| - |t|, r, ws);
    r
  }

  /** A prefix `r` of the suffix `s[i..]`, where `s[i..]` does not start
      with a `ws` character and all after `r` in it is made of `ws`
      characters, is the slice `s[i..i + |r|]` of `s`; what follows it in
      `s` is `ws` characters only, and if it ends in no `ws` character then
      it is trimmed. */
  lemma PrefixOfSuffix(s: string, i: nat, r: string, ws: set<char>)
    requires i <= |s| && |r| <= |s| - i && r == s[i..][..|r|]
    requires forall k :: |r| <= k < |s| - i ==> s[i..][k] in ws
    requires s[i..] == [] || s[i..][0] !in ws
    requires r == [] || r[|r| - 1] !in ws
    ensures r == s[i..i + |r|]
    ensures IsTrimmed(r, ws)
    ensures forall k :: i + |r| <= k < |s| ==> s[k] in ws
    ensures forall c :: c in r ==> c in s
  {
    assert r == [] || r[0] == s[i];
    forall k | i + |r| <= k < |s|
      ensures s[k] in ws
    {
      assert s[k] == s[i..][k - i];
    }
    forall c | c in r
      ensures c in s
    {
      var j :| 0 <= j < |r| && r[j] == c;
      assert s[i + j] == c;
    }
  }

  /** Trimming a trimmed string changes nothing, so trimming is idempotent. */
  lemma TrimOfTrimmed(s: string, ws: set<char>)
    requires IsTrimmed(s, ws)
    ensures Trim(s, ws) == s
  {
  }

  /** `p` occurs nowhere in `s`: it is a prefix of no suffix of `s`. */
  predicate Avoids(s: string, p: string)
    decreases |s|
  {
    !(p <= s) && (|s| == 0 || Avoids(s[1..], p))
  }

  /** A prefix of a string without occurrences of `p` has none either. */
  lemma {:induction false} AvoidsPrefix(s: string, p: string, n: nat)
    requires Avoids(s, p) && n <= |s|
    ensures Avoids(s[..n], p)
    decreases |s|
  {
    if n > 0 {
      assert s[..n][1..] == s[1..][..n - 1];
      AvoidsPrefix(s[1..], p, n - 1);
    }
  }

  /** A suffix of a string without occurrences of `p` has none either. */
  lemma {:induction false} AvoidsSuffix(s: string, p: string, n: nat)
    requires Avoids(s, p) && n <= |s|
    ensures Avoids(s[n..], p)
    decreases n
  {
    if n > 0 {
      assert s[n..] == s[1..][n - 1..];
      AvoidsSuffix(s[1..], p, n - 1);
    }
  }

  /** Trimming cannot create an occurrence of `p`. */
  lemma TrimKeepsAvoids(s: string, ws: set<char>, p: string)
    requires Avoids(s, p)
    ensures Avoids(Trim(s, ws), p)
  {
    var t := TrimStart(s, ws);
    AvoidsSuffix(s, p, |s| - |t|);
    AvoidsPrefix(t, p, |TrimEnd(t, ws)|);
  }

  /** A string without the character `c` has no occurrence of any pattern
      that contains `c`. */
  lemma {:induction false} AvoidsByMissingChar(s: string, p: string, k: nat)
    requires k < |p| && p[k] !in s
    ensures Avoids(s, p)
    decreases |s|
  {
    if |s| > 0 {
      AvoidsByMissingChar(s[1..], p, k);
    }
  }

  /** Python's `s.replace(pat, rep)` for a non-empty `pat`: scanning from the
      left, each occurrence of `pat` is replaced by `rep` and scanning resumes
      after it, so occurrences never overlap. */
  function ReplaceAll(s: string, pat: string, rep: string): (r: string)
    requires |pat| > 0
    ensures forall c :: c in r ==> c in s || c in rep
    ensures |rep| <= |pat| ==> |r| <= |s|
    decreases |s|
  {
    if |s| == 0 then []
    else if pat <= s then rep + ReplaceAll(s[|pat|..], pat, rep)
    else [s[0]] + ReplaceAll(s[1..], pat, rep)
  }

  /** Replacing a pattern that does not occur is the identity. */
  lemma {:induction false} ReplaceAbsent(s: string, pat: string, rep: string)
    requires |pat| > 0 && Avoids(s, pat)
    ensures ReplaceAll(s, pat, rep) == s
    decreases |s|
  {
    if |s| > 0 {
      ReplaceAbsent(s[1..], pat, rep);
      assert s == [s[0]] + s[1..];
    }
  }

  /** A replacement whose first character does not appear in `w` cannot be
      what makes the output start with `w`: if the output does, so did the
      input. */
  lemma {:induction false} ReplacePrefixFromInput(u: string, pat: string, rep: string, w: string)
    requires |pat| > 0 && |rep| > 0 && rep[0] !in w
    requires w <= ReplaceAll(u, pat, rep)
    ensures w <= u
    decreases |w|
  {
    if |w| > 0 {
      assert w[0] == ReplaceAll(u, pat, rep)[0];
      if pat <= u {
        assert false;
      } else {
        var t := ReplaceAll(u[1..], pat, rep);
        assert ReplaceAll(u, pat, rep) == [u[0]] + t;
        assert w[1..] <= t;
        ReplacePrefixFromInput(u[1..], pat, rep, w[1..]);
        assert w == [u[0]] + w[1..];
        assert u == [u[0]] + u[1..];
      }
    }
  }

  /** `s` with every occurrence of `c` deleted and all other characters kept
      in order. */
  function Without(s: string, c: char): (r: string)
    ensures multiset(r) == multiset(s)[c := 0]
    decreases |s|
  {
    if |s| == 0 then []
    else
      assert s == [s[0]] + s[1..];
      (if s[0] == c then [] else [s[0]]) + Without(s[1..], c)
  }

  /** Deleting the one-character pattern [c] is Without. */
  lemma {:induction false} ReplaceSingleIsWithout(s: string, c: char)
    ensures ReplaceAll(s, [c], []) == Without(s, c)
    decreases |s|
  {
    if |s| > 0 {
      ReplaceSingleIsWithout(s[1..], c);
    }
  }

  /** Deleting the two-character pattern [c, c] first does not change what
      deleting every `c` afterwards leaves. */
  lemma {:induction false} WithoutAfterPairDeletion(s: string, c: char)
    ensures Without(ReplaceAll(s, [c, c], []), c) == Without(s, c)
    decreases |s|
  {
    if |s| > 0 {
      if [c, c] <= s {
        WithoutAfterPairDeletion(s[2..], c);
        assert ReplaceAll(s, [c, c], []) == ReplaceAll(s[2..], [c, c], []);
        assert s[1..][1..] == s[2..];
        assert Without(s, c) == Without(s[1..], c) == Without(s[2..], c);
      } else {
        WithoutAfterPairDeletion(s[1..], c);
        var t := ReplaceAll(s[1..], [c, c], []);
        assert ReplaceAll(s, [c, c], []) == [s[0]] + t;
        assert ([s[0]] + t)[1..] == t;
        assert Without([s[0]] + t, c) == (if s[0] == c then [] else [s[0]]) + Without(t, c);
      }
    }
  }

  /** Python's `s.split(sep)`: the pieces between occurrences of `sep`, at
      least one, none containing `sep`. */
  function Split(s: string, sep: char): (parts: seq<string>)
    ensures |parts| >= 1
    ensures forall i :: 0 <= i < |parts| ==> sep !in parts[i]
    decreases |s|
  {
    if |s| == 0 then [[]]
    else if s[0] == sep then [[]] + Split(s[1..], sep)
    else
      var rest := Split(s[1..], sep);
      [[s[0]] + rest[0]] + rest[1..]
  }

  /** Python's `sep.join(parts)`. */
  function Join(parts: seq<string>, sep: char): string
    requires |parts| >= 1
    decreases |parts|
  {
    if |parts| == 1 then parts[0] else parts[0] + [sep] + Join(parts[1..], sep)
  }

  /** Splitting loses nothing: joining the pieces gives back the string. */
  lemma {:induction false} JoinSplit(s: string, sep: char)
    ensures Join(Split(s, sep), sep) == s
    decreases |s|
  {
    if |s| > 0 {
      JoinSplit(s[1..], sep);
      var rest := Split(s[1..], sep);
      if s[0] == sep {
        assert ([[]] + rest)[1..] == rest;
      } else {
        var parts := [[s[0]] + rest[0]] + rest[1..];
        if |rest| > 1 {
          assert parts[1..] == rest[1..];
          assert rest == [rest[0]] + rest[1..];
        }
        assert s == [s[0]] + s[1..];
      }
    }
  }

  /** The first piece is everything before the first separator, and the
      pieces after it are those of the rest of the string. */
  lemma {:induction false} SplitAtFirst(head: string, tail: string, sep: char)
    requires sep !in head
    ensures Split(head + [sep] + tail, sep) == [head] + Split(tail, sep)
    decreases |head|
  {
    if |head| > 0 {
      assert (head + [sep] + tail)[1..] == head[1..] + [sep] + tail;
      SplitAtFirst(head[1..], tail, sep);
      assert head == [head[0]] + head[1..];
    } else {
      assert (head + [sep] + tail)[1..] == tail;
    }
  }

  /** The first piece of a string that starts with `head` and continues with
      a separator or nothing is `head`. */
  lemma {:induction false} SplitFirstPiece(head: string, tail: string, sep: char)
    requires sep !in head
    requires tail == [] || tail[0] == sep
    ensures Split(head + tail, sep)[0] == head
    decreases |head|
  {
    if |head| > 0 {
      assert (head + tail)[1..] == head[1..] + tail;
      SplitFirstPiece(head[1..], tail, sep);
      assert head == [head[0]] + head[1..];
    } else {
      assert head + tail == tail;
    }
  }
}
