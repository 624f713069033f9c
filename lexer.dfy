/**
 * The string handling that the command line goes through before dispatch:
 * JavaScript's `String.prototype.trim` and `split(/\s+/)`.  Both use the same
 * notion of white space (ECMAScript WhiteSpace and LineTerminator code points).
 */
module Lexer {

  /** ECMAScript WhiteSpace or LineTerminator: what `trim` strips and `\s` matches. */
  predicate IsSpace(c: char) {
    || c == '\t' || c == '\n' || c == '\U{000B}' || c == '\U{000C}' || c == '\r'
    || c == ' ' || c == '\U{00A0}' || c == '\U{1680}'
    || ('\U{2000}' <= c <= '\U{200A}')
    || c == '\U{2028}' || c == '\U{2029}' || c == '\U{202F}' || c == '\U{205F}'
    || c == '\U{3000}' || c == '\U{FEFF}'
  }

  predicate AllSpace(s: string) {
    forall i :: 0 <= i < |s| ==> IsSpace(s[i])
  }

  predicate NoSpace(s: string) {
    forall i :: 0 <= i < |s| ==> !IsSpace(s[i])
  }

  /** Neither starts nor ends with white space: what `trim` produces. */
  predicate NoEdgeSpace(s: string) {
    s == [] || (!IsSpace(s[0]) && !IsSpace(s[|s| - 1]))
  }

  /** A word of the command language: non-empty and free of white space. */
  predicate IsToken(s: string) {
    s != [] && NoSpace(s)
  }

  predicate AllTokens(toks: seq<string>) {
    forall i :: 0 <= i < |toks| ==> IsToken(toks[i])
  }

  /** The non-space characters of `s`, in order. */
  function RemoveSpaces(s: string): string {
    if s == [] then []
    else (if IsSpace(s[0]) then [] else [s[0]]) + RemoveSpaces(s[1..])
  }

  function Concat(toks: seq<string>): string {
    if toks == [] then [] else toks[0] + Concat(toks[1..])
  }

  /** Separators between fields: each a non-empty run of white space. */
  predicate Separators(seps: seq<string>) {
    forall i :: 0 <= i < |seps| ==> seps[i] != [] && AllSpace(seps[i])
  }

  /** Fields with the separator `seps[i]` written between fields `i` and `i + 1`. */
  function JoinWith(fields: seq<string>, seps: seq<string>): string
    requires |fields| >= 1 && |seps| == |fields| - 1
  {
    if |fields| == 1 then fields[0]
    else fields[0] + seps[0] + JoinWith(fields[1..], seps[1..])
  }

  /** `n` single blanks, as separators. */
  function Blanks(n: nat): (r: seq<string>)
    ensures |r| == n && Separators(r)
  {
    seq(n, _ => " ")
  }

  /** Tokens separated by single blanks: the canonical way to type a command. */
  function Join(toks: seq<string>): string
    requires |toks| >= 1
  {
    JoinWith(toks, Blanks(|toks| - 1))
  }

  /** The length of the maximal white-space prefix of `s`. */
  function LeadingSpace(s: string): (n: nat)
    ensures n <= |s|
    ensures forall i :: 0 <= i < n ==> IsSpace(s[i])
    ensures n < |s| ==> !IsSpace(s[n])
  {
    if s != [] && IsSpace(s[0]) then
      var m := LeadingSpace(s[1..]);
      assert forall i :: 1 <= i < m + 1 ==> s[i] == s[1..][i - 1];
      m + 1
    else 0
  }

  /** The length of the maximal white-space suffix of `s`. */
  function TrailingSpace(s: string): (n: nat)
    ensures n <= |s|
    ensures forall i :: |s| - n <= i < |s| ==> IsSpace(s[i])
    ensures n < |s| ==> !IsSpace(s[|s| - 1 - n])
  {
    if s != [] && IsSpace(s[|s| - 1]) then
      var m := TrailingSpace(s[..|s| - 1]);
      assert forall i :: |s| - 1 - m <= i < |s| - 1 ==> s[i] == s[..|s| - 1][i];
      m + 1
    else 0
  }

  /**
   * `String.prototype.trim`: the infix of `s` left once the blank prefix and
   * suffix are cut off; it is empty exactly when `s` is all white space.
   */
  function Trim(s: string): (r: string)
    ensures NoEdgeSpace(r)
    ensures r == [] <==> AllSpace(s)
    ensures exists i, j :: 0 <= i <= j <= |s| && r == s[i..j] && AllSpace(s[..i]) && AllSpace(s[j..])
  {
    var a := LeadingSpace(s);
    if a == |s| then
      assert AllSpace(s[..a]) && AllSpace(s[a..]);
      []
    else
      var b := TrailingSpace(s);
      assert a < |s| - b;
      var r := s[a..|s| - b];
      assert r[0] == s[a] && r[|r| - 1] == s[|s| - 1 - b];
      assert AllSpace(s[..a]) && AllSpace(s[|s| - b..]);
      r
  }

  /**
   * `s.split(/\s+/)`: the fields between maximal runs of white space.  A
   * leading (trailing) run yields an empty first (last) field, and the empty
   * string yields one empty field.
   */
  function Split(s: string): (r: seq<string>)
    ensures |r| >= 1
    ensures forall i :: 0 <= i < |r| ==> NoSpace(r[i])
  {
    if s == [] then [""]
    else
      var rest := Split(s[1..]);
      if IsSpace(s[0]) then
        // a run continues, or ends before the next field
        if s[1..] != [] && IsSpace(s[1]) then rest else [""] + rest
      else
        [[s[0]] + rest[0]] + rest[1..]
  }

  lemma {:induction false} RemoveSpacesAppend(a: string, b: string)
    ensures RemoveSpaces(a + b) == RemoveSpaces(a) + RemoveSpaces(b)
    decreases |a|
  {
    if a != [] {
      assert (a + b)[1..] == a[1..] + b;
      RemoveSpacesAppend(a[1..], b);
    } else {
      assert a + b == b;
    }
  }

  lemma {:induction false} RemoveSpacesOfBlank(a: string)
    requires AllSpace(a)
    ensures RemoveSpaces(a) == []
    decreases |a|
  {
    if a != [] {
      RemoveSpacesOfBlank(a[1..]);
    }
  }

  lemma RemoveSpacesOfPadded(p: string, r: string, q: string)
    requires AllSpace(p) && AllSpace(q)
    ensures RemoveSpaces(p + r + q) == RemoveSpaces(r)
  {
    RemoveSpacesAppend(p + r, q);
    RemoveSpacesAppend(p, r);
    RemoveSpacesOfBlank(p);
    RemoveSpacesOfBlank(q);
  }

  /** Trimming only removes white space. */
  lemma TrimKeepsNonSpace(s: string)
    ensures RemoveSpaces(Trim(s)) == RemoveSpaces(s)
  {
    var r := Trim(s);
    var i, j :| 0 <= i <= j <= |s| && r == s[i..j] && AllSpace(s[..i]) && AllSpace(s[j..]);
    RemoveSpacesOfInfix(s, i, j);
  }

  lemma RemoveSpacesOfInfix(s: string, i: nat, j: nat)
    requires i <= j <= |s| && AllSpace(s[..i]) && AllSpace(s[j..])
    ensures RemoveSpaces(s[i..j]) == RemoveSpaces(s)
  {
    assert s == s[..i] + s[i..j] + s[j..];
    RemoveSpacesOfPadded(s[..i], s[i..j], s[j..]);
  }

  lemma AllSpaceAppend(a: string, b: string)
    requires AllSpace(a) && AllSpace(b)
    ensures AllSpace(a + b)
  {
    forall k | 0 <= k < |a + b| ensures IsSpace((a + b)[k]) {
      if k >= |a| { assert (a + b)[k] == b[k - |a|]; }
    }
  }

  /** Padding and trimming round-trip: white space added on both sides of a trimmed string is trimmed off again. */
  lemma TrimPadded(p: string, r: string, q: string)
    requires AllSpace(p) && AllSpace(q) && NoEdgeSpace(r)
    ensures Trim(p + r + q) == r
  {
    var s := p + r + q;
    if r == [] {
      assert s == p + q;
      AllSpaceAppend(p, q);
    } else {
      var a := LeadingSpace(s);
      assert s[|p|] == r[0];
      assert forall i :: 0 <= i < |p| ==> s[i] == p[i];
      assert a == |p|;
      var b := TrailingSpace(s);
      assert s[|s| - 1 - |q|] == r[|r| - 1];
      assert forall i :: |s| - |q| <= i < |s| ==> s[i] == q[i - (|s| - |q|)];
      assert b == |q|;
      assert s[a..|s| - b] == r;
    }
  }

  /** The fields of `split(/\s+/)`, concatenated, are the input with its white space removed. */
  lemma {:induction false} SplitConcat(s: string)
    ensures Concat(Split(s)) == RemoveSpaces(s)
    decreases |s|
  {
    if s != [] {
      var rest := Split(s[1..]);
      SplitConcat(s[1..]);
      if IsSpace(s[0]) {
        if !(s[1..] != [] && IsSpace(s[1])) {
          assert ([""] + rest)[1..] == rest;
        }
      } else {
        var r := [[s[0]] + rest[0]] + rest[1..];
        assert r[1..] == rest[1..];
        assert Concat(rest) == rest[0] + Concat(rest[1..]);
      }
    }
  }

  /** A non-empty input without trailing white space splits into non-empty fields, except perhaps the first. */
  lemma {:induction false} SplitLaterFieldsNonEmpty(s: string)
    requires s == [] || !IsSpace(s[|s| - 1])
    ensures forall i :: 1 <= i < |Split(s)| ==> Split(s)[i] != []
    decreases |s|
  {
    if s != [] {
      var t := s[1..];
      var rest := Split(t);
      assert t != [] ==> t[|t| - 1] == s[|s| - 1];
      SplitLaterFieldsNonEmpty(t);
      if IsSpace(s[0]) && !(t != [] && IsSpace(t[0])) {
        assert rest[0] == [t[0]] + Split(t[1..])[0];
      }
    }
  }

  /** Splitting a trimmed, non-blank line yields only tokens. */
  lemma SplitTrimmedIsTokens(s: string)
    requires s != [] && NoEdgeSpace(s)
    ensures AllTokens(Split(s))
  {
    SplitLaterFieldsNonEmpty(s);
    assert Split(s)[0] == [s[0]] + Split(s[1..])[0];
  }

  /** A field without white space runs into whatever the rest of the line starts with. */
  lemma {:induction false} SplitAfterWord(w: string, x: string)
    requires NoSpace(w)
    ensures Split(w + x) == [w + Split(x)[0]] + Split(x)[1..]
    decreases |w|
  {
    if w == [] {
      assert w + x == x;
      assert w + Split(x)[0] == Split(x)[0];
    } else {
      var u := w + x;
      assert u[1..] == w[1..] + x;
      assert !IsSpace(u[0]);
      SplitAfterWord(w[1..], x);
      assert [w[0]] + (w[1..] + Split(x)[0]) == w + Split(x)[0];
    }
  }

  /** A line that starts with white space splits into an empty field and at least one more. */
  lemma {:induction false} SplitOfSpace(x: string)
    requires x != [] && IsSpace(x[0])
    ensures |Split(x)| >= 2 && Split(x)[0] == ""
    decreases |x|
  {
    if x[1..] != [] && IsSpace(x[1]) {
      SplitOfSpace(x[1..]);
    }
  }

  /** A white-space run of any length before a word yields exactly one empty field. */
  lemma {:induction false} SplitAfterRun(sep: string, x: string)
    requires sep != [] && AllSpace(sep) && x != [] && !IsSpace(x[0])
    ensures Split(sep + x) == [""] + Split(x)
    decreases |sep|
  {
    var u := sep + x;
    assert u[0] == sep[0];
    if |sep| == 1 {
      assert u[1..] == x;
    } else {
      assert u[1..] == sep[1..] + x;
      assert u[1] == sep[1];
      SplitAfterRun(sep[1..], x);
    }
  }

  /** A word, a white-space run, and a line that starts with a word: the word is a field of its own. */
  lemma SplitWordRun(w: string, sep: string, x: string)
    requires NoSpace(w) && sep != [] && AllSpace(sep) && x != [] && !IsSpace(x[0])
    ensures Split(w + sep + x) == [w] + Split(x)
  {
    var st := Split(sep + x);
    assert w + sep + x == w + (sep + x);
    SplitAfterWord(w, sep + x);
    SplitAfterRun(sep, x);
    assert st[0] == "" && st[1..] == Split(x);
    assert w + "" == w;
  }

  lemma TokensTail(toks: seq<string>)
    requires |toks| >= 1 && AllTokens(toks)
    ensures AllTokens(toks[1..])
  {
    forall i | 0 <= i < |toks[1..]| ensures IsToken(toks[1..][i]) {
      assert toks[1..][i] == toks[i + 1];
    }
  }

  lemma SeparatorsTail(seps: seq<string>)
    requires |seps| >= 1 && Separators(seps)
    ensures Separators(seps[1..])
  {
    forall i | 0 <= i < |seps[1..]| ensures seps[1..][i] != [] && AllSpace(seps[1..][i]) {
      assert seps[1..][i] == seps[i + 1];
    }
  }

  lemma {:induction false} JoinEdges(toks: seq<string>, seps: seq<string>)
    requires |toks| >= 1 && AllTokens(toks)
    requires |seps| == |toks| - 1 && Separators(seps)
    ensures JoinWith(toks, seps) != [] && NoEdgeSpace(JoinWith(toks, seps))
    decreases |toks|
  {
    if |toks| == 1 {
      assert !IsSpace(toks[0][0]) && !IsSpace(toks[0][|toks[0]| - 1]);
    } else {
      var tail := JoinWith(toks[1..], seps[1..]);
      TokensTail(toks);
      SeparatorsTail(seps);
      JoinEdges(toks[1..], seps[1..]);
      var j := JoinWith(toks, seps);
      assert j == toks[0] + seps[0] + tail;
      assert j[0] == toks[0][0];
      assert j[|j| - 1] == tail[|tail| - 1];
    }
  }

  /**
   * Inverse of `Split` on token lists: splitting tokens written with any white-space runs
   * between them gives the tokens back, in order.
   */
  lemma {:induction false} SplitJoin(toks: seq<string>, seps: seq<string>)
    requires |toks| >= 1 && AllTokens(toks)
    requires |seps| == |toks| - 1 && Separators(seps)
    ensures Split(JoinWith(toks, seps)) == toks
    decreases |toks|
  {
    var w := toks[0];
    if |toks| == 1 {
      SplitAfterWord(w, []);
      assert w + [] == w;
    } else {
      var tail := JoinWith(toks[1..], seps[1..]);
      TokensTail(toks);
      SeparatorsTail(seps);
      SplitJoin(toks[1..], seps[1..]);
      JoinEdges(toks[1..], seps[1..]);
      SplitWordRun(w, seps[0], tail);
      assert JoinWith(toks, seps) == w + seps[0] + tail;
      assert [w] + toks[1..] == toks;
    }
  }

  /** Prefixing the first field prefixes the whole spelling. */
  lemma JoinWithHead(a: string, t: string, ts: seq<string>, seps: seq<string>)
    requires |seps| == |ts|
    ensures JoinWith([a + t] + ts, seps) == a + JoinWith([t] + ts, seps)
  {
    var f, g := [a + t] + ts, [t] + ts;
    assert f[0] == a + t && g[0] == t;
    if ts == [] {
      assert |f| == 1 && |g| == 1;
    } else {
      assert f[1..] == ts && g[1..] == ts;
      var tail := JoinWith(ts, seps[1..]);
      assert JoinWith(f, seps) == (a + t) + seps[0] + tail;
      assert JoinWith(g, seps) == t + seps[0] + tail;
      Regroup(a, t, seps[0], tail);
    }
  }

  lemma Regroup(a: string, b: string, c: string, d: string)
    ensures a + b + c + d == a + (b + c + d)
  {
  }

  /** Prefixing the first separator, after an empty first field, prefixes the whole spelling. */
  lemma JoinWithLongerRun(c: string, fields: seq<string>, seps: seq<string>)
    requires |fields| >= 2 && fields[0] == "" && |seps| == |fields| - 1
    ensures JoinWith(fields, [c + seps[0]] + seps[1..]) == c + JoinWith(fields, seps)
  {
    var seps2 := [c + seps[0]] + seps[1..];
    assert seps2[1..] == seps[1..];
    var tail := JoinWith(fields[1..], seps[1..]);
    assert JoinWith(fields, seps2) == "" + (c + seps[0]) + tail;
    assert JoinWith(fields, seps) == "" + seps[0] + tail;
  }

  /** An empty first field and a new separator in front of a spelling. */
  lemma JoinWithEmptyField(c: string, fields: seq<string>, seps: seq<string>)
    requires |fields| >= 1 && |seps| == |fields| - 1
    ensures JoinWith([""] + fields, [c] + seps) == c + JoinWith(fields, seps)
  {
    var f, g := [""] + fields, [c] + seps;
    assert |f| > 1 && f[1..] == fields && g[1..] == seps;
    var tail := JoinWith(fields, seps);
    assert JoinWith(f, g) == f[0] + g[0] + tail;
    assert f[0] + g[0] == c;
  }

  lemma SeparatorsLongerRun(c: string, seps: seq<string>)
    requires |seps| >= 1 && Separators(seps) && AllSpace(c)
    ensures Separators([c + seps[0]] + seps[1..])
  {
    AllSpaceAppend(c, seps[0]);
    var seps2 := [c + seps[0]] + seps[1..];
    forall i | 0 <= i < |seps2| ensures seps2[i] != [] && AllSpace(seps2[i]) {
      if i > 0 { assert seps2[i] == seps[i]; }
    }
  }

  lemma SeparatorsCons(c: string, seps: seq<string>)
    requires c != [] && AllSpace(c) && Separators(seps)
    ensures Separators([c] + seps)
  {
    var seps2 := [c] + seps;
    forall i | 0 <= i < |seps2| ensures seps2[i] != [] && AllSpace(seps2[i]) {
      if i > 0 { assert seps2[i] == seps[i - 1]; }
    }
  }

  /** The white-space runs between the fields of `Split(s)`, in order. */
  function Gaps(s: string): seq<string> {
    if s == [] then []
    else
      var g := Gaps(s[1..]);
      if !IsSpace(s[0]) then g
      else if s[1..] != [] && IsSpace(s[1]) && g != [] then [[s[0]] + g[0]] + g[1..]
      else [[s[0]]] + g
  }

  lemma {:induction false} GapsCount(s: string)
    ensures |Gaps(s)| == |Split(s)| - 1
    decreases |s|
  {
    if s != [] {
      GapsCount(s[1..]);
      if IsSpace(s[0]) && s[1..] != [] && IsSpace(s[1]) {
        SplitOfSpace(s[1..]);
      }
    }
  }

  lemma {:induction false} GapsAreSeparators(s: string)
    ensures Separators(Gaps(s))
    decreases |s|
  {
    if s != [] {
      var g := Gaps(s[1..]);
      GapsAreSeparators(s[1..]);
      if IsSpace(s[0]) {
        assert AllSpace([s[0]]);
        if s[1..] != [] && IsSpace(s[1]) && g != [] {
          SeparatorsLongerRun([s[0]], g);
        } else {
          SeparatorsCons([s[0]], g);
        }
      }
    }
  }

  /**
   * Only the first and the last field can be empty: a gap between two fields
   * is never followed by another gap, so each gap is a maximal run.
   */
  lemma {:induction false} SplitInnerFields(s: string)
    ensures forall i :: 1 <= i < |Split(s)| - 1 ==> Split(s)[i] != []
    decreases |s|
  {
    if s != [] {
      var rest := Split(s[1..]);
      SplitInnerFields(s[1..]);
      if IsSpace(s[0]) && !(s[1..] != [] && IsSpace(s[1])) {
        if s[1..] != [] {
          assert rest[0] == [s[1]] + Split(s[2..])[0];
        }
        assert forall i :: 1 <= i < |rest| + 1 ==> ([""] + rest)[i] == rest[i - 1];
      }
    }
  }

  /**
   * Converse of `SplitJoin`: every string is its fields written back with one
   * non-empty white-space run between consecutive fields, so `Split` cuts
   * exactly at the white-space runs.
   */
  lemma {:induction false} SplitSpells(s: string)
    ensures |Gaps(s)| == |Split(s)| - 1 && Separators(Gaps(s)) && JoinWith(Split(s), Gaps(s)) == s
    ensures forall i :: 1 <= i < |Split(s)| - 1 ==> Split(s)[i] != []
    decreases |s|
  {
    SplitInnerFields(s);
    GapsCount(s);
    GapsAreSeparators(s);
    if s != [] {
      var rest, g := Split(s[1..]), Gaps(s[1..]);
      SplitSpells(s[1..]);
      var c := [s[0]];
      assert s == c + s[1..];
      if IsSpace(s[0]) && s[1..] != [] && IsSpace(s[1]) {
        SplitOfSpace(s[1..]);
        JoinWithLongerRun(c, rest, g);
      } else if IsSpace(s[0]) {
        JoinWithEmptyField(c, rest, g);
      } else {
        JoinWithHead(c, rest[0], rest[1..], g);
        assert [rest[0]] + rest[1..] == rest;
      }
    }
  }

  /** A string is its trimmed fields, written with white-space runs between them and padded with white space. */
  lemma TrimSpells(s: string)
    ensures exists p, seps, q ::
              AllSpace(p) && AllSpace(q) && |seps| == |Split(Trim(s))| - 1 && Separators(seps) &&
              s == p + JoinWith(Split(Trim(s)), seps) + q
  {
    var raw := Trim(s);
    var i, j :| 0 <= i <= j <= |s| && raw == s[i..j] && AllSpace(s[..i]) && AllSpace(s[j..]);
    PaddedSpells(s, i, j);
  }

  lemma PaddedSpells(s: string, i: nat, j: nat)
    requires i <= j <= |s| && AllSpace(s[..i]) && AllSpace(s[j..])
    ensures exists p, seps, q ::
              AllSpace(p) && AllSpace(q) && |seps| == |Split(s[i..j])| - 1 && Separators(seps) &&
              s == p + JoinWith(Split(s[i..j]), seps) + q
  {
    var raw := s[i..j];
    SplitSpells(raw);
    var fields, seps := Split(raw), Gaps(raw);
    var p, q := s[..i], s[j..];
    assert s == p + raw + q;
    assert AllSpace(p) && AllSpace(q) && |seps| == |fields| - 1 && Separators(seps) &&
           s == p + JoinWith(fields, seps) + q;
  }
}
