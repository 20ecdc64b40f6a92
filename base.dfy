/** Value-level helpers shared by every module: optional values, the loose JSON
    values a request body carries, the three supported locales and a few
    sequence and string functions with the meaning JavaScript gives them. */
module Base {

  datatype Option<+T> = None | Some(value: T)

  /** A field read from a JSON body or a query string: absent, an explicit null,
      or a string. */
  datatype Field = Undefined | Null | Text(text: string)
  {
    /** JavaScript truthiness: only a non-empty string is truthy. */
    predicate Truthy() {
      Text? && text != ""
    }

    /** `x !== undefined` */
    predicate Defined() {
      !Undefined?
    }

    /** `x || null`: a truthy string is kept, everything else becomes SQL NULL. */
    function OrNull(): (r: Option<string>)
      ensures r.Some? <==> Truthy()
      ensures r.Some? ==> r.value == text
    {
      if Truthy() then Some(text) else None
    }
  }

  /** `v || fallback` for an environment variable (`process.env.X || fallback`). */
  function OrDefault(v: Option<string>, fallback: string): (r: string)
    ensures v.Some? && v.value != "" ==> r == v.value
    ensures v.None? || v.value == "" ==> r == fallback
  {
    if v.Some? && v.value != "" then v.value else fallback
  }

  /** The three languages of the site. */
  datatype Locale = En | Fr | Ar

  /** Parses a language code compared with `===`: only the three lower-case
      codes are known. */
  function LocaleOf(code: string): (r: Option<Locale>)
    ensures r == Some(En) <==> code == "en"
    ensures r == Some(Fr) <==> code == "fr"
    ensures r == Some(Ar) <==> code == "ar"
  {
    if code == "en" then Some(En)
    else if code == "fr" then Some(Fr)
    else if code == "ar" then Some(Ar)
    else None
  }

  function CodeOf(l: Locale): string {
    match l
    case En => "en"
    case Fr => "fr"
    case Ar => "ar"
  }

  lemma {:induction false} LocaleCodeRoundTrip(l: Locale)
    ensures LocaleOf(CodeOf(l)) == Some(l)
  {
    match l
    case En =>
    case Fr =>
    case Ar =>
  }

  /** ASCII lower case of one character. */
  function LowerChar(c: char): char {
    if 'A' <= c <= 'Z' then (c as int + 32) as char else c
  }

  /** ASCII lower case of a string. */
  function AsciiLower(s: string): (r: string)
    ensures |r| == |s|
    ensures forall k :: 0 <= k < |s| ==> r[k] == LowerChar(s[k])
  {
    if s == [] then [] else [LowerChar(s[0])] + AsciiLower(s[1..])
  }

  /** A language code pasted into a column name (`title_${lang}`). MySQL
      resolves column names without regard to case, so any case variant of a
      known code names that locale's column; anything else names no column. */
  function ColumnLocale(code: string): (r: Option<Locale>)
    ensures forall l :: r == Some(l) <==> AsciiLower(code) == CodeOf(l)
  {
    var low := AsciiLower(code);
    LocaleCodeRoundTrip(En);
    LocaleCodeRoundTrip(Fr);
    LocaleCodeRoundTrip(Ar);
    LocaleOf(low)
  }

  /** Every case variant of a code names its locale, and a lower-case code
      names the same locale for a column as for `===`. */
  lemma {:induction false} ColumnLocaleCases(l: Locale)
    ensures ColumnLocale(CodeOf(l)) == LocaleOf(CodeOf(l)) == Some(l)
    ensures ColumnLocale("EN") == Some(En) && ColumnLocale("Fr") == Some(Fr) && ColumnLocale("aR") == Some(Ar)
    ensures LocaleOf("EN").None? && LocaleOf("Fr").None?
  {
    LocaleCodeRoundTrip(l);
    assert AsciiLower("EN") == "en";
    assert AsciiLower("Fr") == "fr";
    assert AsciiLower("aR") == "ar";
    match l
    case En => assert AsciiLower("en") == "en";
    case Fr => assert AsciiLower("fr") == "fr";
    case Ar => assert AsciiLower("ar") == "ar";
  }

  /** A value kept once per locale (the `_en`, `_fr`, `_ar` column triple). */
  datatype Localized<T> = Localized(en: T, fr: T, ar: T)
  {
    function Pick(l: Locale): T {
      match l
      case En => en
      case Fr => fr
      case Ar => ar
    }
  }

  predicate StartsWith(s: string, prefix: string) {
    |prefix| <= |s| && s[..|prefix|] == prefix
  }

  /** `t` occurs in `s` at position `k`. */
  predicate OccursAt(s: string, t: string, k: nat) {
    k + |t| <= |s| && s[k..k + |t|] == t
  }

  /** `s.includes(t)` */
  predicate Contains(s: string, t: string) {
    exists k: nat | k <= |s| :: OccursAt(s, t, k)
  }

  /** The middle part of a concatenation occurs after the first part. */
  lemma OccursInMiddle(a: string, b: string, c: string)
    ensures OccursAt(a + b + c, b, |a|)
  {
    assert (a + b + c)[|a|..|a| + |b|] == b;
  }

  /** An occurrence inside an occurrence is an occurrence. */
  lemma OccursWithin(s: string, t: string, u: string, i: nat, j: nat)
    requires OccursAt(s, t, i) && OccursAt(t, u, j)
    ensures OccursAt(s, u, i + j)
  {
    forall k | 0 <= k < |u| ensures s[i + j + k] == u[k] {
      assert t[j + k] == u[k];
      assert s[i..i + |t|][j + k] == s[i + j + k];
    }
    assert s[i + j..i + j + |u|] == u;
  }

  /** Order-preserving filter (`Array.prototype.filter`). */
  function Filter<T(!new)>(s: seq<T>, p: T -> bool): (r: seq<T>)
    ensures |r| <= |s|
    ensures forall x :: x in r <==> x in s && p(x)
  {
    if s == [] then []
    else if p(s[0]) then [s[0]] + Filter(s[1..], p)
    else Filter(s[1..], p)
  }

  lemma {:induction false} FilterAppend<T(!new)>(a: seq<T>, b: seq<T>, p: T -> bool)
    ensures Filter(a + b, p) == Filter(a, p) + Filter(b, p)
  {
    if a == [] {
      assert a + b == b;
    } else {
      assert (a + b)[0] == a[0];
      assert (a + b)[1..] == a[1..] + b;
      FilterAppend(a[1..], b, p);
      if p(a[0]) {
        assert Filter(a + b, p) == [a[0]] + Filter(a[1..] + b, p);
        assert Filter(a, p) == [a[0]] + Filter(a[1..], p);
      } else {
        assert Filter(a + b, p) == Filter(a[1..] + b, p);
        assert Filter(a, p) == Filter(a[1..], p);
      }
    }
  }

  /** `.map(f).filter(...)` where `f` rejects a piece with `None`: the
      accepted values, in order. */
  function FilterMap<A, B>(s: seq<A>, f: A -> Option<B>): (r: seq<B>)
    ensures |r| <= |s|
  {
    if s == [] then []
    else (if f(s[0]).Some? then [f(s[0]).value] else []) + FilterMap(s[1..], f)
  }

  lemma {:induction false} FilterMapAppend<A, B>(a: seq<A>, b: seq<A>, f: A -> Option<B>)
    ensures FilterMap(a + b, f) == FilterMap(a, f) + FilterMap(b, f)
  {
    if a == [] {
      assert a + b == b;
    } else {
      assert (a + b)[0] == a[0];
      assert (a + b)[1..] == a[1..] + b;
      FilterMapAppend(a[1..], b, f);
      var head := if f(a[0]).Some? then [f(a[0]).value] else [];
      assert FilterMap(a + b, f) == head + FilterMap(a[1..] + b, f);
      assert FilterMap(a, f) == head + FilterMap(a[1..], f);
      assert head + (FilterMap(a[1..], f) + FilterMap(b, f)) == (head + FilterMap(a[1..], f)) + FilterMap(b, f);
    }
  }

  /** The values kept are those of the accepted pieces, and only those. */
  lemma {:induction false} FilterMapMembers<A, B>(s: seq<A>, f: A -> Option<B>)
    ensures forall x :: x in FilterMap(s, f) <==> exists k :: 0 <= k < |s| && f(s[k]) == Some(x)
  {
    if s != [] {
      FilterMapMembers(s[1..], f);
      assert forall k :: 1 <= k < |s| ==> s[k] == s[1..][k - 1];
      forall x | exists k :: 0 <= k < |s| && f(s[k]) == Some(x)
        ensures x in FilterMap(s, f)
      {
        var k :| 0 <= k < |s| && f(s[k]) == Some(x);
        if k > 0 {
          assert s[1..][k - 1] == s[k];
        }
      }
    }
  }

  /** When every piece is accepted, the values come out one per piece. */
  lemma {:induction false} FilterMapEach<A, B>(s: seq<A>, f: A -> Option<B>, r: seq<B>)
    requires |s| == |r|
    requires forall k :: 0 <= k < |s| ==> f(s[k]) == Some(r[k])
    ensures FilterMap(s, f) == r
  {
    if s != [] {
      assert f(s[0]) == Some(r[0]);
      FilterMapEach(s[1..], f, r[1..]);
      assert [r[0]] + r[1..] == r;
    }
  }

  /** Two tests that agree on the elements keep the same elements. */
  lemma {:induction false} FilterExt<T(!new)>(s: seq<T>, p: T -> bool, q: T -> bool)
    requires forall x :: x in s ==> p(x) == q(x)
    ensures Filter(s, p) == Filter(s, q)
  {
    if s != [] {
      FilterExt(s[1..], p, q);
    }
  }

  lemma {:induction false} FilterAll<T(!new)>(s: seq<T>, p: T -> bool)
    requires forall x :: x in s ==> p(x)
    ensures Filter(s, p) == s
  {
    if s != [] {
      FilterAll(s[1..], p);
    }
  }

  lemma {:induction false} FilterNone<T(!new)>(s: seq<T>, p: T -> bool)
    requires forall x :: x in s ==> !p(x)
    ensures Filter(s, p) == []
  {
    if s != [] {
      FilterNone(s[1..], p);
    }
  }

  lemma {:induction false} FilterMultiset<T(!new)>(s: seq<T>, p: T -> bool)
    ensures multiset(Filter(s, p)) <= multiset(s)
    ensures forall x :: x in s && p(x) ==> multiset(Filter(s, p))[x] == multiset(s)[x]
  {
    if s != [] {
      var tail := s[1..];
      FilterMultiset(tail, p);
      assert s == [s[0]] + tail;
      assert multiset(s) == multiset{s[0]} + multiset(tail);
      if p(s[0]) {
        assert Filter(s, p) == [s[0]] + Filter(tail, p);
        assert multiset(Filter(s, p)) == multiset{s[0]} + multiset(Filter(tail, p));
      } else {
        assert Filter(s, p) == Filter(tail, p);
      }
    }
  }

  /** A filtered sequence is a subsequence: a relation that holds between
      every earlier and later element still holds after filtering. */
  lemma {:induction false} FilterPairs<T(!new)>(s: seq<T>, p: T -> bool, rel: (T, T) -> bool)
    requires forall i, j :: 0 <= i < j < |s| ==> rel(s[i], s[j])
    ensures forall i, j :: 0 <= i < j < |Filter(s, p)| ==> rel(Filter(s, p)[i], Filter(s, p)[j])
  {
    if s != [] {
      var tail := s[1..];
      assert forall i, j :: 0 <= i < j < |tail| ==> rel(tail[i], tail[j]) by {
        forall i, j | 0 <= i < j < |tail| ensures rel(tail[i], tail[j]) {
          assert tail[i] == s[i + 1] && tail[j] == s[j + 1];
        }
      }
      FilterPairs(tail, p, rel);
      if p(s[0]) {
        var rest := Filter(tail, p);
        var f := [s[0]] + rest;
        forall i, j | 0 <= i < j < |f| ensures rel(f[i], f[j]) {
          if i == 0 {
            assert f[j] in tail;
            var k :| 0 <= k < |tail| && tail[k] == f[j];
            assert s[k + 1] == f[j];
          } else {
            assert f[i] == rest[i - 1] && f[j] == rest[j - 1];
          }
        }
      }
    }
  }

  /** Number of elements that satisfy `p` (`filter(p).length`). */
  function Count<T(!new)>(s: seq<T>, p: T -> bool): (n: nat)
    ensures n <= |s|
  {
    |Filter(s, p)|
  }

  /** Removes every occurrence of `x`. */
  function Without<T(==,!new)>(s: seq<T>, x: T): (r: seq<T>)
    ensures x !in r
    ensures forall y :: y != x ==> (y in r <==> y in s)
    ensures multiset(r) <= multiset(s)
    ensures forall y :: y != x ==> multiset(r)[y] == multiset(s)[y]
  {
    var p := (y: T) => y != x;
    FilterMultiset(s, p);
    Filter(s, p)
  }

  /** Nothing to remove leaves the list as it is. */
  lemma {:induction false} WithoutAbsent<T(!new)>(s: seq<T>, x: T)
    requires x !in s
    ensures Without(s, x) == s
  {
    if s != [] {
      WithoutAbsent(s[1..], x);
      assert s == [s[0]] + s[1..];
    }
  }

  /** An occurrence at the end goes with the others. */
  lemma {:induction false} WithoutSnoc<T(!new)>(s: seq<T>, x: T)
    ensures Without(s + [x], x) == Without(s, x)
  {
    if s == [] {
      assert Without([x], x) == [] + Without([x][1..], x);
    } else {
      assert (s + [x])[1..] == s[1..] + [x];
      WithoutSnoc(s[1..], x);
    }
  }

  /** `String.prototype.split` with a one-character separator: the pieces
      between separators, empty ones included. */
  function Split(s: string, sep: char): (r: seq<string>)
    ensures |r| >= 1
  {
    if s == [] then [""]
    else
      var rest := Split(s[1..], sep);
      if s[0] == sep then [""] + rest
      else [[s[0]] + rest[0]] + rest[1..]
  }

  /** No piece holds the separator. */
  lemma {:induction false} SplitPiecesFree(s: string, sep: char)
    ensures forall p :: p in Split(s, sep) ==> sep !in p
  {
    if s != [] {
      SplitPiecesFree(s[1..], sep);
      var rest := Split(s[1..], sep);
      if s[0] != sep {
        assert rest[0] in rest;
        forall p | p in Split(s, sep) ensures sep !in p {
          if p != [s[0]] + rest[0] {
            assert p in rest[1..];
          }
        }
      }
    }
  }

  /** `Array.prototype.join` with a one-character separator. */
  function Join(parts: seq<string>, sep: char): string
    requires |parts| >= 1
  {
    if |parts| == 1 then parts[0] else parts[0] + [sep] + Join(parts[1..], sep)
  }

  /** Splitting loses nothing: joining the pieces gives the text back. */
  lemma {:induction false} JoinSplit(s: string, sep: char)
    ensures Join(Split(s, sep), sep) == s
  {
    if s != [] {
      JoinSplit(s[1..], sep);
      var rest := Split(s[1..], sep);
      if s[0] != sep {
        var r := Split(s, sep);
        if |rest| == 1 {
          assert r == [[s[0]] + rest[0]];
        } else {
          assert r[1..] == rest[1..];
          assert Join(r, sep) == [s[0]] + rest[0] + [sep] + Join(rest[1..], sep);
        }
        assert s == [s[0]] + s[1..];
      } else {
        assert Split(s, sep)[1..] == rest;
      }
    }
  }

  /** Pieces without the separator come back from splitting their join. */
  lemma {:induction false} SplitJoin(parts: seq<string>, sep: char)
    requires |parts| >= 1
    requires forall p :: p in parts ==> sep !in p
    ensures Split(Join(parts, sep), sep) == parts
    decreases |parts|, |parts[0]|
  {
    if |parts| == 1 {
      SplitNoSep(parts[0], sep);
    } else if parts[0] == [] {
      TailFree(parts, sep);
      SplitJoin(parts[1..], sep);
      SplitJoinEmpty(parts, sep);
    } else {
      ShorterFree(parts, sep);
      SplitJoin([parts[0][1..]] + parts[1..], sep);
      SplitJoinCons(parts, sep);
    }
  }

  lemma TailFree(parts: seq<string>, sep: char)
    requires |parts| >= 1
    requires forall p :: p in parts ==> sep !in p
    ensures forall p :: p in parts[1..] ==> sep !in p
  {
    forall p | p in parts[1..] ensures sep !in p {
      assert p in parts;
    }
  }

  lemma ShorterFree(parts: seq<string>, sep: char)
    requires |parts| >= 1 && parts[0] != []
    requires forall p :: p in parts ==> sep !in p
    ensures parts[0][0] != sep
    ensures forall p :: p in [parts[0][1..]] + parts[1..] ==> sep !in p
  {
    var p0 := parts[0];
    assert p0 in parts && p0[0] in p0;
    forall p | p in [p0[1..]] + parts[1..] ensures sep !in p {
      if p == p0[1..] {
        assert forall c :: c in p0[1..] ==> c in p0;
      } else {
        assert p in parts[1..];
        assert p in parts;
      }
    }
  }

  /** The step of `SplitJoin` for an empty first piece. */
  lemma SplitJoinEmpty(parts: seq<string>, sep: char)
    requires |parts| >= 2 && parts[0] == []
    requires Split(Join(parts[1..], sep), sep) == parts[1..]
    ensures Split(Join(parts, sep), sep) == parts
  {
    var tail := parts[1..];
    assert Join(parts, sep) == [sep] + Join(tail, sep);
    assert ([sep] + Join(tail, sep))[1..] == Join(tail, sep);
    assert parts == [""] + tail;
  }

  /** The step of `SplitJoin` for a non-empty first piece. */
  lemma SplitJoinCons(parts: seq<string>, sep: char)
    requires |parts| >= 1 && parts[0] != [] && parts[0][0] != sep
    requires Split(Join([parts[0][1..]] + parts[1..], sep), sep) == [parts[0][1..]] + parts[1..]
    ensures Split(Join(parts, sep), sep) == parts
  {
    var shorter := [parts[0][1..]] + parts[1..];
    JoinCons(parts, sep);
    SplitCons(parts[0][0], Join(shorter, sep), sep);
    assert [parts[0][0]] + parts[0][1..] == parts[0];
    assert shorter[1..] == parts[1..];
  }

  /** The first character of a non-empty first piece leads the join. */
  lemma JoinCons(parts: seq<string>, sep: char)
    requires |parts| >= 1 && parts[0] != []
    ensures Join(parts, sep) == [parts[0][0]] + Join([parts[0][1..]] + parts[1..], sep)
  {
    var shorter := [parts[0][1..]] + parts[1..];
    assert shorter[1..] == parts[1..];
    assert parts[0] == [parts[0][0]] + parts[0][1..];
    if |parts| > 1 {
      assert Join(parts, sep) == parts[0] + [sep] + Join(parts[1..], sep);
      assert Join(shorter, sep) == parts[0][1..] + [sep] + Join(parts[1..], sep);
    }
  }

  /** A character other than the separator extends the first piece. */
  lemma SplitCons(c: char, t: string, sep: char)
    requires c != sep
    ensures Split([c] + t, sep) == [[c] + Split(t, sep)[0]] + Split(t, sep)[1..]
  {
    assert ([c] + t)[1..] == t;
  }

  lemma {:induction false} SplitNoSep(s: string, sep: char)
    requires sep !in s
    ensures Split(s, sep) == [s]
  {
    if s != [] {
      assert forall c :: c in s[1..] ==> c in s;
      SplitNoSep(s[1..], sep);
      assert [s[0]] + s[1..] == s;
    }
  }

  /** The white-space and line-terminator characters stripped by
      `String.prototype.trim`. */
  predicate IsJsSpace(c: char) {
    c == ' ' || c == '\t' || c == '\n' || c == '\r' || c == '\U{000B}' || c == '\U{000C}'
    || c == '\U{00A0}' || c == '\U{1680}' || ('\U{2000}' <= c <= '\U{200A}')
    || c == '\U{2028}' || c == '\U{2029}' || c == '\U{202F}' || c == '\U{205F}'
    || c == '\U{3000}' || c == '\U{FEFF}'
  }

  /** `trimStart`: drops white space from the front. */
  function TrimStart(s: string): (r: string)
    ensures |r| <= |s|
    ensures r == [] || !IsJsSpace(r[0])
  {
    if s != [] && IsJsSpace(s[0]) then TrimStart(s[1..]) else s
  }

  /** What `trimStart` leaves is a suffix. */
  lemma {:induction false} TrimStartSuffix(s: string)
    ensures TrimStart(s) == s[|s| - |TrimStart(s)|..]
  {
    if s != [] && IsJsSpace(s[0]) {
      TrimStartSuffix(s[1..]);
      assert s[1..][|s| - 1 - |TrimStart(s)|..] == s[|s| - |TrimStart(s)|..];
    }
  }

  /** `trimEnd`: drops white space from the back. */
  function TrimEnd(s: string): (r: string)
    ensures |r| <= |s|
    ensures r == [] || !IsJsSpace(r[|r| - 1])
  {
    if s != [] && IsJsSpace(s[|s| - 1]) then TrimEnd(s[..|s| - 1]) else s
  }

  /** What `trimEnd` leaves is a prefix. */
  lemma {:induction false} TrimEndPrefix(s: string)
    ensures TrimEnd(s) == s[..|TrimEnd(s)|]
  {
    if s != [] && IsJsSpace(s[|s| - 1]) {
      TrimEndPrefix(s[..|s| - 1]);
      assert s[..|s| - 1][..|TrimEnd(s)|] == s[..|TrimEnd(s)|];
    }
  }

  /** Neither end is white space. */
  predicate Trimmed(s: string) {
    s == [] || (!IsJsSpace(s[0]) && !IsJsSpace(s[|s| - 1]))
  }

  /** `String.prototype.trim` */
  function Trim(s: string): (r: string)
    ensures |r| <= |s|
    ensures Trimmed(r)
  {
    var t := TrimStart(s);
    TrimEndPrefix(t);
    assert TrimEnd(t) != [] ==> TrimEnd(t)[0] == t[0];
    TrimEnd(t)
  }

  /** A trimmed text is its own trim. */
  lemma {:induction false} TrimStable(s: string)
    requires Trimmed(s)
    ensures Trim(s) == s
  {
  }

  /** Trimming only removes characters. */
  lemma TrimKeeps(s: string, c: char)
    requires c in Trim(s)
    ensures c in s
  {
    var t := TrimStart(s);
    TrimStartSuffix(s);
    TrimEndPrefix(t);
    assert Trim(s) == t[..|Trim(s)|];
    assert t == s[|s| - |t|..];
  }

  /** Lexicographic order on strings by code unit, the order this model uses
      for SQL `ORDER BY` on a text column. */
  predicate StrLe(a: string, b: string)
    decreases |a|
  {
    a == [] || (b != [] && (a[0] < b[0] || (a[0] == b[0] && StrLe(a[1..], b[1..]))))
  }

  lemma {:induction false} StrLeTotal(a: string, b: string)
    ensures StrLe(a, b) || StrLe(b, a)
    decreases |a|
  {
    if a != [] && b != [] && a[0] == b[0] {
      StrLeTotal(a[1..], b[1..]);
    }
  }

  lemma {:induction false} StrLeTrans(a: string, b: string, c: string)
    requires StrLe(a, b) && StrLe(b, c)
    ensures StrLe(a, c)
    decreases |a|
  {
    if a != [] && b != [] && c != [] && a[0] == b[0] && b[0] == c[0] {
      StrLeTrans(a[1..], b[1..], c[1..]);
    }
  }

  lemma {:induction false} StrLeAntisym(a: string, b: string)
    requires StrLe(a, b) && StrLe(b, a)
    ensures a == b
    decreases |a|
  {
    if a != [] {
      StrLeAntisym(a[1..], b[1..]);
      assert a == [a[0]] + a[1..] && b == [b[0]] + b[1..];
    }
  }
}
