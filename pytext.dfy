/**
 * The Python string builtins the detection code relies on, over `string`
 * (a sequence of characters): substring `in`, `str.count`, `str.split(sep)`
 * and `str.split()` with no argument, and the truth value of an optional
 * string.
 */
module PyText {
  import opened Wrappers

  /** The truth value of `x` in `if x:` for `x` of type `Optional[str]`:
      both `None` and `""` are false. */
  predicate Truthy(x: Option<string>) {
    x.Some? && x.value != ""
  }

  /** The characters for which Python's `str.isspace()` holds; `str.split()`
      with no argument separates on runs of these. */
  predicate IsSpace(c: char) {
    || c == ' '
    || ('\t' <= c <= '\r')            // tab, line feed, vertical tab, form feed, carriage return
    || ('\U{1C}' <= c <= '\U{1F}')    // file, group, record and unit separators
    || c == '\U{85}' || c == '\U{A0}' || c == '\U{1680}'
    || ('\U{2000}' <= c <= '\U{200A}')
    || c == '\U{2028}' || c == '\U{2029}' || c == '\U{202F}' || c == '\U{205F}'
    || c == '\U{3000}'
  }

  /** `sub` occurs in `s` starting at index `i`. */
  predicate OccursAt(s: string, sub: string, i: int) {
    0 <= i && i + |sub| <= |s| && s[i..i + |sub|] == sub
  }

  /** Python's `sub in s` for two strings. */
  predicate Contains(s: string, sub: string)
    decreases |s|
  {
    (|sub| <= |s| && s[..|sub|] == sub) || (s != [] && Contains(s[1..], sub))
  }

  /** `Contains` holds exactly when `sub` occurs at some index of `s`. */
  lemma {:induction false} ContainsOccurs(s: string, sub: string)
    ensures Contains(s, sub) <==> exists i :: OccursAt(s, sub, i)
    decreases |s|
  {
    if Contains(s, sub) {
      if |sub| <= |s| && s[..|sub|] == sub {
        assert OccursAt(s, sub, 0);
      } else {
        ContainsOccurs(s[1..], sub);
        var i :| OccursAt(s[1..], sub, i);
        assert s[i + 1..i + 1 + |sub|] == s[1..][i..i + |sub|];
        assert OccursAt(s, sub, i + 1);
      }
    }
    if exists i :: OccursAt(s, sub, i) {
      var i :| OccursAt(s, sub, i);
      if i > 0 {
        assert s[1..][i - 1..i - 1 + |sub|] == s[i..i + |sub|];
        assert OccursAt(s[1..], sub, i - 1);
        ContainsOccurs(s[1..], sub);
      } else {
        assert s[..|sub|] == s[i..i + |sub|];
      }
    }
  }

  /** Python's `s.count(c)` for a one-character `c`. */
  function Count(s: string, c: char): (n: nat)
    ensures n <= |s|
    ensures n == 0 <==> c !in s
  {
    if s == [] then 0 else (if s[0] == c then 1 else 0) + Count(s[1..], c)
  }

  /** `Count` is the multiplicity of `c` in `s`. */
  lemma {:induction false} CountIsMultiplicity(s: string, c: char)
    ensures Count(s, c) == multiset(s)[c]
  {
    if s != [] {
      CountIsMultiplicity(s[1..], c);
      assert s == [s[0]] + s[1..];
      assert multiset(s) == multiset{s[0]} + multiset(s[1..]);
    }
  }

  /** Python's `s.split(sep)` for a one-character separator: the pieces
      between separators, empty ones included, one more than there are
      separators, none of them holding the separator. */
  function Split(s: string, sep: char): (parts: seq<string>)
    ensures |parts| == Count(s, sep) + 1
    ensures forall k :: 0 <= k < |parts| ==> sep !in parts[k]
  {
    if s == [] then [""]
    else
      var rest := Split(s[1..], sep);
      if s[0] == sep then [""] + rest else [[s[0]] + rest[0]] + rest[1..]
  }

  /** The pieces put back together with `sep` between them, as Python's
      `sep.join(parts)` does; it is the inverse that states the round trips
      of `Split`. */
  function Join(parts: seq<string>, sep: char): string {
    if parts == [] then ""
    else if |parts| == 1 then parts[0]
    else parts[0] + [sep] + Join(parts[1..], sep)
  }

  /** The first piece of a split is the longest prefix free of the
      separator: either the whole string, or it is followed by `sep`. */
  lemma {:induction false} SplitFirst(s: string, sep: char)
    ensures var h := Split(s, sep)[0];
      |h| <= |s| && h == s[..|h|] && (|h| < |s| ==> s[|h|] == sep)
  {
    if s != [] && s[0] != sep {
      SplitFirst(s[1..], sep);
    }
  }

  /** Putting a character in front of the first piece puts it in front of the join. */
  lemma JoinConsFirst(c: char, parts: seq<string>, sep: char)
    requires |parts| >= 1
    ensures Join([[c] + parts[0]] + parts[1..], sep) == [c] + Join(parts, sep)
  {
  }

  /** Splitting then joining gives the string back. */
  lemma {:induction false} JoinSplit(s: string, sep: char)
    ensures Join(Split(s, sep), sep) == s
  {
    if s != [] {
      var rest := Split(s[1..], sep);
      JoinSplit(s[1..], sep);
      assert s == [s[0]] + s[1..];
      if s[0] == sep {
        assert Split(s, sep) == [""] + rest;
        assert ([""] + rest)[1..] == rest;
      } else {
        assert Split(s, sep) == [[s[0]] + rest[0]] + rest[1..];
        JoinConsFirst(s[0], rest, sep);
      }
    }
  }

  /** Prepending a separator-free prefix extends the first piece only. */
  lemma {:induction false} SplitPrefix(a: string, t: string, sep: char)
    requires sep !in a
    ensures Split(a + t, sep) == [a + Split(t, sep)[0]] + Split(t, sep)[1..]
  {
    if a != [] {
      SplitPrefix(a[1..], t, sep);
      var parts := Split(t, sep);
      var rest := Split(a[1..] + t, sep);
      assert (a + t)[1..] == a[1..] + t;
      assert (a + t)[0] == a[0] && a[0] != sep;
      assert Split(a + t, sep) == [[a[0]] + rest[0]] + rest[1..];
      assert rest[0] == a[1..] + parts[0] && rest[1..] == parts[1..];
      assert [a[0]] + (a[1..] + parts[0]) == a + parts[0];
    } else {
      assert a + t == t;
      var parts := Split(t, sep);
      assert a + parts[0] == parts[0];
      assert parts == [parts[0]] + parts[1..];
    }
  }

  /** Joining separator-free pieces and splitting again gives the pieces back. */
  lemma {:induction false} SplitJoin(parts: seq<string>, sep: char)
    requires |parts| >= 1
    requires forall k :: 0 <= k < |parts| ==> sep !in parts[k]
    ensures Split(Join(parts, sep), sep) == parts
  {
    if |parts| == 1 {
      SplitPrefix(parts[0], "", sep);
      assert parts[0] + "" == parts[0];
    } else {
      var tail := [sep] + Join(parts[1..], sep);
      SplitJoin(parts[1..], sep);
      assert Join(parts, sep) == parts[0] + tail;
      SplitPrefix(parts[0], tail, sep);
      assert tail[1..] == Join(parts[1..], sep);
      assert Split(tail, sep) == [""] + parts[1..];
      assert parts[0] + "" == parts[0];
    }
  }

  /** The length of the run of non-space characters that starts `s`. */
  function WordEnd(s: string): (n: nat)
    ensures n <= |s|
    ensures forall k :: 0 <= k < n ==> !IsSpace(s[k])
    ensures n < |s| ==> IsSpace(s[n])
  {
    if s == [] || IsSpace(s[0]) then 0 else 1 + WordEnd(s[1..])
  }

  /** Python's `s.split()` with no argument: the maximal runs of non-space
      characters, in order; each one is non-empty and holds no space. */
  function Fields(s: string): (ws: seq<string>)
    ensures forall k :: 0 <= k < |ws| ==> ws[k] != [] && forall c :: c in ws[k] ==> !IsSpace(c)
    decreases |s|
  {
    if s == [] then []
    else if IsSpace(s[0]) then Fields(s[1..])
    else
      var n := WordEnd(s);
      assert n != 0;
      [s[..n]] + Fields(s[n..])
  }

  /** The characters of `s` that are not spaces, in order. */
  function NonSpace(s: string): string {
    if s == [] then [] else (if IsSpace(s[0]) then [] else [s[0]]) + NonSpace(s[1..])
  }

  /** The concatenation of a sequence of strings. */
  function Concat(ws: seq<string>): string {
    if ws == [] then [] else ws[0] + Concat(ws[1..])
  }

  lemma {:induction false} NonSpaceAppend(a: string, b: string)
    ensures NonSpace(a + b) == NonSpace(a) + NonSpace(b)
  {
    if a != [] {
      NonSpaceAppend(a[1..], b);
      assert (a + b)[1..] == a[1..] + b;
    } else {
      assert a + b == b;
    }
  }

  lemma {:induction false} NonSpaceOfWord(w: string)
    requires forall k :: 0 <= k < |w| ==> !IsSpace(w[k])
    ensures NonSpace(w) == w
  {
    if w != [] {
      NonSpaceOfWord(w[1..]);
    }
  }

  /** No character other than white space is lost or added by `Fields`:
      the fields, glued together, are `s` with its white space removed. */
  lemma {:induction false} FieldsKeepNonSpace(s: string)
    ensures Concat(Fields(s)) == NonSpace(s)
    decreases |s|
  {
    if s != [] {
      if IsSpace(s[0]) {
        FieldsKeepNonSpace(s[1..]);
      } else {
        var n := WordEnd(s);
        FieldsKeepNonSpace(s[n..]);
        assert s == s[..n] + s[n..];
        NonSpaceAppend(s[..n], s[n..]);
        NonSpaceOfWord(s[..n]);
        assert Fields(s)[1..] == Fields(s[n..]);
      }
    }
  }

  /** `w` stands in `s` at index `p` as a maximal run: only white space or
      an end of `s` lies on either side of it. */
  predicate RunAt(s: string, w: string, p: int) {
    OccursAt(s, w, p) && (p == 0 || IsSpace(s[p - 1])) && (p + |w| == |s| || IsSpace(s[p + |w|]))
  }

  /** The words `ws` stand in `s` at the increasing positions `ps`, each as a
      maximal run, and consecutive words do not touch. */
  predicate RunsAt(s: string, ws: seq<string>, ps: seq<int>) {
    && |ps| == |ws|
    && (forall k :: 0 <= k < |ws| ==> RunAt(s, ws[k], ps[k]))
    && (forall k :: 0 <= k < |ws| - 1 ==> ps[k] + |ws[k]| < ps[k + 1])
  }

  function Shift(ps: seq<int>, d: int): (r: seq<int>)
    ensures |r| == |ps| && forall k :: 0 <= k < |r| ==> r[k] == ps[k] + d
  {
    seq(|ps|, i requires 0 <= i < |ps| => ps[i] + d)
  }

  /** A maximal run of `s[d..]` is one of `s` when it does not start right
      after a non-space character of `s[..d]`. */
  lemma RunAtShift(s: string, d: int, w: string, p: int)
    requires 0 <= d <= |s| && RunAt(s[d..], w, p)
    requires p > 0 || d == 0 || IsSpace(s[d - 1])
    ensures RunAt(s, w, p + d)
  {
  }

  /** White space in front of `s[1..]` moves its runs one place along. */
  lemma RunsAfterSpace(s: string, ws: seq<string>, ps: seq<int>)
    requires s != [] && IsSpace(s[0])
    requires RunsAt(s[1..], ws, ps)
    ensures RunsAt(s, ws, Shift(ps, 1))
  {
  }

  /** A first word `s[..n]` followed by white space, in front of the runs
      of `s[n..]`, gives the runs of `s`. */
  lemma RunsAfterWord(s: string, n: nat, ws: seq<string>, ps: seq<int>)
    requires 0 < n <= |s| && (n < |s| ==> IsSpace(s[n]))
    requires forall k :: 0 <= k < n ==> !IsSpace(s[k])
    requires forall k :: 0 <= k < |ws| ==> ws[k] != [] && !IsSpace(ws[k][0])
    requires RunsAt(s[n..], ws, ps)
    ensures RunsAt(s, [s[..n]] + ws, [0] + Shift(ps, n))
  {
    var qs := [0] + Shift(ps, n);
    var vs := [s[..n]] + ws;
    forall k | 0 <= k < |ws| ensures ps[k] > 0 {
      assert s[n..][ps[k]] == ws[k][0];
    }
    forall k | 0 <= k < |vs| ensures RunAt(s, vs[k], qs[k]) {
      if k == 0 {
        assert vs[0] == s[..n] && qs[0] == 0;
      } else {
        assert vs[k] == ws[k - 1] && qs[k] == ps[k - 1] + n;
        RunAtShift(s, n, ws[k - 1], ps[k - 1]);
      }
    }
    forall k | 0 <= k < |vs| - 1 ensures qs[k] + |vs[k]| < qs[k + 1] {
      assert qs[k + 1] == ps[k] + n;
      if k > 0 {
        assert vs[k] == ws[k - 1] && qs[k] == ps[k - 1] + n;
      }
    }
  }

  /** The fields of `s.split()` are its maximal runs of non-space characters,
      in order: each stands in `s` between white space or the ends of `s`,
      and each lies strictly after the one before. */
  lemma {:induction false} FieldsAreRuns(s: string)
    ensures exists ps :: RunsAt(s, Fields(s), ps)
    decreases |s|
  {
    if s == [] {
      assert Fields(s) == [];
      assert RunsAt(s, [], []);
    } else if IsSpace(s[0]) {
      FieldsAreRuns(s[1..]);
      var ps :| RunsAt(s[1..], Fields(s[1..]), ps);
      RunsAfterSpace(s, Fields(s[1..]), ps);
      assert Fields(s) == Fields(s[1..]);
      assert RunsAt(s, Fields(s), Shift(ps, 1));
    } else {
      var n := WordEnd(s);
      var ws := Fields(s[n..]);
      FieldsAreRuns(s[n..]);
      var ps :| RunsAt(s[n..], ws, ps);
      forall k | 0 <= k < |ws| ensures ws[k] != [] && !IsSpace(ws[k][0]) {
        assert ws[k][0] in ws[k];
      }
      RunsAfterWord(s, n, ws, ps);
      assert Fields(s) == [s[..n]] + ws;
      assert RunsAt(s, Fields(s), [0] + Shift(ps, n));
    }
  }
}
