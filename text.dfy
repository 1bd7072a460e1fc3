/** String operations that the assembler uses on source text: splitting at a
    separator, cutting at the first occurrence of a character, trimming
    whitespace and upper-casing, each with the property that pins it down. */
module Text {

  /** Whitespace as Python's `str.isspace` sees the ASCII range:
      tab, line feed, vertical tab, form feed, carriage return,
      the four information separators and the space. */
  predicate IsSpace(c: char) {
    (9 <= c as int <= 13) || (28 <= c as int <= 31) || c == ' '
  }

  predicate IsLower(c: char) {
    'a' <= c <= 'z'
  }

  /** ASCII upper-casing of one character. */
  function UpperChar(c: char): (u: char)
    ensures !IsLower(u)
    ensures IsLower(c) ==> u as int == c as int - 32
    ensures !IsLower(c) ==> u == c
  {
    if IsLower(c) then (c as int - 32) as char else c
  }

  /** `s.upper()`: every character upper-cased, in place. */
  function Upper(s: string): (r: string)
    ensures |r| == |s|
    ensures forall k :: 0 <= k < |s| ==> r[k] == UpperChar(s[k])
  {
    seq(|s|, k requires 0 <= k < |s| => UpperChar(s[k]))
  }

  /** Position of the first occurrence of `c` in `s`. */
  function IndexOf(s: string, c: char): (i: nat)
    requires c in s
    ensures i < |s| && s[i] == c && c !in s[..i]
  {
    if s[0] == c then 0 else 1 + IndexOf(s[1..], c)
  }

  /** `s.split(c)[0]`: the text before the first `c`, or all of `s`. */
  function BeforeFirst(s: string, c: char): (r: string)
    ensures c !in r
    ensures r <= s
    ensures r == s || s[|r|] == c
  {
    if c in s then s[..IndexOf(s, c)] else s
  }

  /** `s.split(sep)`: the pieces between separators, in order; there is
      always one more piece than separators, so `""` gives `[""]`. */
  function Split(s: string, sep: char): (r: seq<string>)
    ensures |r| >= 1
    ensures forall k :: 0 <= k < |r| ==> sep !in r[k]
    decreases |s|
  {
    if sep in s then
      var i := IndexOf(s, sep);
      [s[..i]] + Split(s[i + 1..], sep)
    else
      [s]
  }

  /** `sep.join(pieces)`, the inverse of `Split`. */
  function Join(pieces: seq<string>, sep: char): string
    requires |pieces| >= 1
  {
    if |pieces| == 1 then pieces[0] else pieces[0] + [sep] + Join(pieces[1..], sep)
  }

  /** Splitting loses nothing: joining the pieces again gives back the text. */
  lemma {:induction false} JoinSplit(s: string, sep: char)
    ensures Join(Split(s, sep), sep) == s
    decreases |s|
  {
    if sep in s {
      var i := IndexOf(s, sep);
      var rest := Split(s[i + 1..], sep);
      assert Split(s, sep) == [s[..i]] + rest;
      JoinSplit(s[i + 1..], sep);
      assert ([s[..i]] + rest)[1..] == rest;
      assert Join(Split(s, sep), sep) == s[..i] + [sep] + Join(rest, sep);
      assert s == s[..i] + [sep] + s[i + 1..];
    }
  }

  /** Splitting at the first separator. */
  lemma SplitAt(s: string, sep: char, i: nat)
    requires i < |s| && s[i] == sep && sep !in s[..i]
    ensures Split(s, sep) == [s[..i]] + Split(s[i + 1..], sep)
  {
  }

  /** Joining pieces that hold no separator and splitting again gives back
      the pieces. */
  lemma {:induction false} SplitJoin(pieces: seq<string>, sep: char)
    requires |pieces| >= 1 && forall k :: 0 <= k < |pieces| ==> sep !in pieces[k]
    ensures Split(Join(pieces, sep), sep) == pieces
  {
    var head := pieces[0];
    if |pieces| == 1 {
      assert sep !in head;
    } else {
      var rest := pieces[1..];
      var s := Join(pieces, sep);
      assert s == head + [sep] + Join(rest, sep);
      assert forall k :: 0 <= k < |rest| ==> sep !in rest[k] by {
        forall k | 0 <= k < |rest| ensures sep !in rest[k] {
          assert rest[k] == pieces[k + 1];
        }
      }
      SplitJoin(rest, sep);
      assert s[..|head|] == head;
      assert s[|head| + 1..] == Join(rest, sep);
      SplitAt(s, sep, |head|);
      assert [head] + rest == pieces;
    }
  }

  /** `s.lstrip()`: drop the leading whitespace. */
  function TrimStart(s: string): (r: string)
    ensures r == [] || !IsSpace(r[0])
    ensures |r| <= |s| && r == s[|s| - |r|..]
    ensures forall k :: 0 <= k < |s| - |r| ==> IsSpace(s[k])
  {
    if s != [] && IsSpace(s[0]) then TrimStart(s[1..]) else s
  }

  /** `s.rstrip()`: drop the trailing whitespace. */
  function TrimEnd(s: string): (r: string)
    ensures r == [] || !IsSpace(r[|r| - 1])
    ensures r <= s
    ensures forall k :: |r| <= k < |s| ==> IsSpace(s[k])
  {
    if s != [] && IsSpace(s[|s| - 1]) then TrimEnd(s[..|s| - 1]) else s
  }

  /** `s.strip()`: drop the whitespace at both ends. What is left is a
      slice of `s` with no whitespace at either end. */
  function Strip(s: string): (r: string)
    ensures r == [] || (!IsSpace(r[0]) && !IsSpace(r[|r| - 1]))
    ensures forall c :: c in r ==> c in s
  {
    var t := TrimStart(s);
    assert forall c :: c in t ==> c in s by {
      assert t == s[|s| - |t|..];
    }
    TrimEnd(t)
  }

  /** Leading whitespace is what `TrimStart` removes, and no more. */
  lemma {:induction false} TrimStartSpaces(sp: string, t: string)
    requires forall k :: 0 <= k < |sp| ==> IsSpace(sp[k])
    requires t == [] || !IsSpace(t[0])
    ensures TrimStart(sp + t) == t
    decreases |sp|
  {
    if sp == [] {
      assert sp + t == t;
    } else {
      assert (sp + t)[1..] == sp[1..] + t;
      TrimStartSpaces(sp[1..], t);
    }
  }

  /** Trailing whitespace is what `TrimEnd` removes, and no more. */
  lemma {:induction false} TrimEndSpaces(t: string, sp: string)
    requires forall k :: 0 <= k < |sp| ==> IsSpace(sp[k])
    requires t == [] || !IsSpace(t[|t| - 1])
    ensures TrimEnd(t + sp) == t
    decreases |sp|
  {
    if sp == [] {
      assert t + sp == t;
    } else {
      var n := |sp| - 1;
      assert (t + sp)[..|t + sp| - 1] == t + sp[..n];
      TrimEndSpaces(t, sp[..n]);
    }
  }

  lemma UpperCharSpace(c: char)
    ensures IsSpace(UpperChar(c)) <==> IsSpace(c)
  {
  }

  /** Stripping twice is stripping once. */
  lemma StripIdempotent(s: string)
    ensures Strip(Strip(s)) == Strip(s)
  {
    var r := Strip(s);
    assert TrimStart(r) == r;
  }

  /** Upper-casing commutes with trimming: it neither creates nor removes
      whitespace. */
  lemma {:induction false} UpperTrimStart(s: string)
    ensures Upper(TrimStart(s)) == TrimStart(Upper(s))
  {
    if s != [] {
      var u := Upper(s);
      UpperCharSpace(s[0]);
      assert u[0] == UpperChar(s[0]);
      if IsSpace(s[0]) {
        UpperTrimStart(s[1..]);
        assert u[1..] == Upper(s[1..]);
        assert TrimStart(u) == TrimStart(u[1..]);
      } else {
        assert TrimStart(u) == u;
      }
    }
  }

  lemma {:induction false} UpperTrimEnd(s: string)
    ensures Upper(TrimEnd(s)) == TrimEnd(Upper(s))
  {
    if s != [] {
      var u := Upper(s);
      var n := |s| - 1;
      UpperCharSpace(s[n]);
      assert u[n] == UpperChar(s[n]);
      if IsSpace(s[n]) {
        UpperTrimEnd(s[..n]);
        assert u[..n] == Upper(s[..n]);
        assert TrimEnd(u) == TrimEnd(u[..n]);
      } else {
        assert TrimEnd(u) == u;
      }
    }
  }

  lemma UpperStrip(s: string)
    ensures Upper(Strip(s)) == Strip(Upper(s))
  {
    UpperTrimStart(s);
    UpperTrimEnd(TrimStart(s));
  }

  /** Upper-casing commutes with cutting at a character that is not a
      letter (such as `;` or `:`). */
  lemma UpperBeforeFirst(s: string, c: char)
    requires !IsLower(c) && !('A' <= c <= 'Z')
    ensures Upper(BeforeFirst(s, c)) == BeforeFirst(Upper(s), c)
  {
    var u := Upper(s);
    assert forall k :: 0 <= k < |s| ==> (u[k] == c <==> s[k] == c);
    if c in s {
      var i := IndexOf(s, c);
      assert u[i] == c;
      var j := IndexOf(u, c);
      assert s[j] == c;
      assert i == j;
    }
  }

  /** Upper-casing neither adds nor removes a character that is not a
      letter. */
  lemma UpperContains(s: string, c: char)
    requires !IsLower(c) && !('A' <= c <= 'Z')
    ensures c in Upper(s) <==> c in s
  {
    var u := Upper(s);
    if c in u {
      var k := IndexOf(u, c);
      assert s[k] == c;
    }
    if c in s {
      var k := IndexOf(s, c);
      assert u[k] == c;
    }
  }

  /** Upper-casing is idempotent. */
  lemma UpperIdempotent(s: string)
    ensures Upper(Upper(s)) == Upper(s)
  {
  }
}
