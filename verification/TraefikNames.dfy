/**
 * Sanitised Traefik identifiers. `Slug` follows the code (map, collapse, trim);
 * `Words` is the independent reading of it: the maximal alphanumeric runs.
 */
module TraefikNames {
  import opened Text

  predicate IsAlnum(c: char) {
    'a' <= c <= 'z' || '0' <= c <= '9'
  }

  /**
   * The character written for one rune: its lower case when that is a-z or 0-9, else a
   * hyphen. Outside A-Z only U+0130 and U+212A have an ASCII letter as lower case.
   */
  function Fold(c: char): (r: char)
    ensures IsAlnum(r) || r == '-'
  {
    if IsAlnum(c) then c
    else if 'A' <= c <= 'Z' then (c as int + 32) as char
    else if c == '\U{0130}' then 'i'
    else if c == '\U{212A}' then 'k'
    else '-'
  }

  /** Digits and small letters stay, capitals become small, two further capitals have an ASCII small letter, all else is a hyphen. */
  lemma FoldTable(c: char)
    ensures 'a' <= c <= 'z' || '0' <= c <= '9' ==> Fold(c) == c
    ensures 'A' <= c <= 'Z' ==> Fold(c) as int - 'a' as int == c as int - 'A' as int
    ensures c as int == 0x130 ==> Fold(c) == 'i'
    ensures c as int == 0x212A ==> Fold(c) == 'k'
    ensures !('a' <= c <= 'z' || '0' <= c <= '9' || 'A' <= c <= 'Z' || c as int == 0x130 || c as int == 0x212A) ==> Fold(c) == '-'
  {
  }

  function Folded(s: string): (t: string)
    ensures |t| == |s| && forall i :: 0 <= i < |s| ==> t[i] == Fold(s[i])
  {
    if s == "" then "" else Folded(s[..|s| - 1]) + [Fold(s[|s| - 1])]
  }

  /** Replacing every run of two or more hyphens by one. */
  function Collapse(s: string): string {
    if |s| < 2 then s
    else if s[0] == '-' && s[1] == '-' then Collapse(s[1..])
    else [s[0]] + Collapse(s[1..])
  }

  function TrimLeft(s: string): string {
    if s != "" && s[0] == '-' then TrimLeft(s[1..]) else s
  }

  function TrimRight(s: string): string {
    if s != "" && s[|s| - 1] == '-' then TrimRight(s[..|s| - 1]) else s
  }

  function Slug(s: string): string {
    TrimLeft(TrimRight(Collapse(Folded(s))))
  }

  method SanitiseName(s: string) returns (r: string)
    ensures r == Slug(s) && r == Join(Words(Folded(s)))
  {
    var b := "";
    for i := 0 to |s|
      invariant b == Folded(s[..i])
    {
      assert s[..i + 1][..i] == s[..i];
      b := b + [Fold(s[i])];
    }
    assert s[..|s|] == s;
    r := TrimLeft(TrimRight(Collapse(b)));
    SlugIsWords(s);
  }

  // ---- The reference: hyphen-joined alphanumeric words ---------------------------

  ghost predicate IsWord(w: string) {
    w != "" && forall i :: 0 <= i < |w| ==> IsAlnum(w[i])
  }

  /** The maximal alphanumeric runs of t, in order. */
  function Words(t: string): (ws: seq<string>)
    ensures t != "" && IsAlnum(t[0]) ==> ws != [] && ws[0] != "" && ws[0][0] == t[0]
    ensures forall i :: 0 <= i < |ws| ==> IsWord(ws[i])
  {
    if t == "" then []
    else
      var ws := Words(t[1..]);
      if !IsAlnum(t[0]) then ws
      else if |t| > 1 && IsAlnum(t[1]) then [[t[0]] + ws[0]] + ws[1..]
      else [[t[0]]] + ws
  }

  function Join(ws: seq<string>): string {
    if ws == [] then "" else if |ws| == 1 then ws[0] else ws[0] + "-" + Join(ws[1..])
  }

  ghost predicate Plain(t: string) {
    forall i :: 0 <= i < |t| ==> IsAlnum(t[i]) || t[i] == '-'
  }

  lemma {:induction false} TrimRightOfCons(c: char, x: string)
    requires c != '-' || TrimRight(x) != ""
    ensures TrimRight([c] + x) == [c] + TrimRight(x)
    decreases |x|
  {
    var y := [c] + x;
    if x != "" && x[|x| - 1] == '-' {
      assert y[..|y| - 1] == [c] + x[..|x| - 1];
      TrimRightOfCons(c, x[..|x| - 1]);
    }
  }

  /** The text of t's words, keeping a leading hyphen when t has one. */
  function Skeleton(t: string): string {
    (if t != "" && t[0] == '-' && Words(t) != [] then "-" else "") + Join(Words(t))
  }

  lemma SkeletonAfterHyphen(u: string)
    requires u != "" && IsAlnum(u[0])
    ensures Skeleton(['-'] + u) == ['-'] + Skeleton(u) && Skeleton(u) != ""
  {
    assert (['-'] + u)[1..] == u;
    JoinStarts(Words(u));
  }

  lemma SkeletonAfterLetter(c: char, u: string)
    requires IsAlnum(c) && Plain(u)
    ensures Skeleton([c] + u) == [c] + Skeleton(u)
  {
    var t := [c] + u;
    assert t[1..] == u;
    var ws := Words(u);
    if u != "" && IsAlnum(u[0]) {
      assert Words(t) == [[c] + ws[0]] + ws[1..];
      assert Words(t)[1..] == ws[1..];
    } else {
      assert Words(t) == [[c]] + ws;
      assert Words(t)[1..] == ws;
    }
  }

  /** What is left after collapsing and trimming the right end. */
  lemma {:induction false} CollapsedWords(t: string)
    requires Plain(t)
    ensures TrimRight(Collapse(t)) == Skeleton(t)
    decreases |t|
  {
    if |t| <= 1 {
      CollapsedShort(t);
    } else {
      var u := t[1..];
      assert t == [t[0]] + u && Plain(u);
      CollapsedWords(u);
      if t[0] == '-' && t[1] == '-' {
        assert Words(t) == Words(u);
      } else if t[0] == '-' {
        SkeletonAfterHyphen(u);
        TrimRightOfCons(t[0], Collapse(u));
      } else {
        SkeletonAfterLetter(t[0], u);
        TrimRightOfCons(t[0], Collapse(u));
      }
    }
  }

  lemma CollapsedShort(t: string)
    requires Plain(t) && |t| <= 1
    ensures TrimRight(Collapse(t)) == Skeleton(t)
  {
    if |t| == 1 {
      assert t[1..] == "" && t[..0] == "";
    }
  }

  lemma {:induction false} JoinStarts(ws: seq<string>)
    requires ws != [] && forall i :: 0 <= i < |ws| ==> IsWord(ws[i])
    ensures Join(ws) != "" && IsAlnum(Join(ws)[0])
  {
    assert IsWord(ws[0]) && Join(ws)[0] == ws[0][0];
  }

  lemma TrimmedSkeleton(t: string)
    ensures TrimLeft(Skeleton(t)) == Join(Words(t))
  {
    var j := Join(Words(t));
    if Words(t) != [] {
      JoinStarts(Words(t));
      assert TrimLeft(j) == j;
      assert ("-" + j)[1..] == j;
    } else {
      assert Skeleton(t) == "";
    }
  }

  /** Sanitising is exactly joining the alphanumeric words with single hyphens. */
  lemma SlugIsWords(s: string)
    ensures Slug(s) == Join(Words(Folded(s)))
  {
    CollapsedWords(Folded(s));
    TrimmedSkeleton(Folded(s));
  }

  lemma {:induction false} WordsSplit(a: string, sep: char, b: string)
    requires !IsAlnum(sep)
    ensures Words(a + [sep] + b) == Words(a) + Words(b)
    decreases |a|
  {
    var t := a + [sep] + b;
    if a == "" {
      assert t[1..] == b;
    } else {
      var u := a[1..] + [sep] + b;
      WordsSplit(a[1..], sep, b);
      assert t == [a[0]] + u && a == [a[0]] + a[1..];
      assert u[0] == if |a| > 1 then a[1] else sep;
      WordsOfCons(a[0], u);
      WordsOfCons(a[0], a[1..]);
      PrependConcat(a[0], Words(a[1..]), Words(b));
    }
  }

  lemma PrependConcat(c: char, x: seq<string>, y: seq<string>)
    ensures [[c]] + (x + y) == [[c]] + x + y
    ensures x != [] ==> [[c] + (x + y)[0]] + (x + y)[1..] == [[c] + x[0]] + x[1..] + y
  {
  }

  /** How one more character in front changes the words. */
  lemma WordsOfCons(c: char, u: string)
    ensures Words([c] + u) ==
            if !IsAlnum(c) then Words(u)
            else if u != "" && IsAlnum(u[0]) then [[c] + Words(u)[0]] + Words(u)[1..]
            else [[c]] + Words(u)
  {
    assert ([c] + u)[1..] == u;
  }

  lemma {:induction false} WordsOfWord(w: string)
    requires IsWord(w)
    ensures Words(w) == [w]
  {
    if |w| > 1 {
      assert IsWord(w[1..]) by {
        forall i | 0 <= i < |w[1..]| ensures IsAlnum(w[1..][i]) { assert w[1..][i] == w[i + 1]; }
      }
      WordsOfWord(w[1..]);
      assert [w[0]] + w[1..] == w;
    } else {
      assert w[1..] == "";
      assert [w[0]] == w;
    }
  }

  lemma {:induction false} WordsOfJoin(ws: seq<string>)
    requires forall i :: 0 <= i < |ws| ==> IsWord(ws[i])
    ensures Words(Join(ws)) == ws
  {
    if |ws| == 1 {
      WordsOfWord(ws[0]);
    } else if |ws| > 1 {
      assert ws[0] + "-" + Join(ws[1..]) == ws[0] + ['-'] + Join(ws[1..]);
      WordsSplit(ws[0], '-', Join(ws[1..]));
      WordsOfWord(ws[0]);
      WordsOfJoin(ws[1..]);
    }
  }

  // ---- Names of domain-port entries ----------------------------------------------

  function EntryName(domain: string, port: int): string {
    Slug(domain + "-" + Decimal(port))
  }

  lemma FoldedConcat(a: string, b: string)
    ensures Folded(a + b) == Folded(a) + Folded(b)
  {
  }

  lemma HyphenSeparatesWords(a: string, b: string)
    ensures Words(Folded(a + "-" + b)) == Words(Folded(a)) + Words(Folded(b))
  {
    FoldedConcat(a, "-");
    FoldedConcat(a + "-", b);
    assert Folded("-") == ['-'];
    WordsSplit(Folded(a), '-', Folded(b));
  }

  /** The port is the last word of the name, whatever the domain contains. */
  lemma EntryNameWords(domain: string, port: nat)
    ensures EntryName(domain, port) == Join(Words(Folded(domain)) + [Digits(port)])
  {
    var digits := Digits(port);
    HyphenSeparatesWords(domain, digits);
    assert Folded(digits) == digits && IsWord(digits);
    WordsOfWord(digits);
    SlugIsWords(domain + "-" + digits);
  }

  /**
   * Two sanitised `domain-port` names with non-negative ports are equal exactly when the
   * ports are equal and the domains sanitise alike.
   */
  lemma NamesSeparatePorts(d: string, p: nat, e: string, q: nat)
    ensures EntryName(d, p) == EntryName(e, q) <==> p == q && Slug(d) == Slug(e)
  {
    EntryNameWords(d, p);
    EntryNameWords(e, q);
    var dw, ew := Words(Folded(d)), Words(Folded(e));
    assert IsWord(Digits(p)) && IsWord(Digits(q));
    WordsOfJoin(dw + [Digits(p)]);
    WordsOfJoin(ew + [Digits(q)]);
    WordsOfJoin(dw);
    WordsOfJoin(ew);
    SlugIsWords(d);
    SlugIsWords(e);
    if EntryName(d, p) == EntryName(e, q) {
      assert dw + [Digits(p)] == ew + [Digits(q)];
      assert (dw + [Digits(p)])[|dw|] == (ew + [Digits(q)])[|ew|];
      DigitsInjective(p, q);
      assert dw == (dw + [Digits(p)])[..|dw|] == (ew + [Digits(q)])[..|ew|] == ew;
    } else if Slug(d) == Slug(e) {
      assert dw == ew;
    }
  }

  function Abs(p: int): nat {
    if p < 0 then -p else p
  }

  lemma SignIsDropped(b: string)
    ensures Words(Folded("-" + b)) == Words(Folded(b))
  {
    var t := Folded("-" + b);
    assert t[0] == '-';
    assert t[1..] == Folded(b);
  }

  /** The sign of a negative port is sanitised away. */
  lemma NameOfAbsolutePort(d: string, p: int)
    ensures EntryName(d, p) == EntryName(d, Abs(p))
  {
    var digits, printed := Decimal(Abs(p)), Decimal(p);
    if p < 0 {
      assert Words(Folded(printed)) == Words(Folded(digits)) by { SignIsDropped(digits); }
    }
    HyphenSeparatesWords(d, digits);
    HyphenSeparatesWords(d, printed);
    SlugIsWords(d + "-" + digits);
    SlugIsWords(d + "-" + printed);
  }

  /** For all ports: two names are equal exactly when the absolute values of the ports are and the domains sanitise alike. */
  lemma NamesSeparateAbsolutePorts(d: string, p: int, e: string, q: int)
    ensures EntryName(d, p) == EntryName(e, q) <==> Abs(p) == Abs(q) && Slug(d) == Slug(e)
  {
    NameOfAbsolutePort(d, p);
    NameOfAbsolutePort(e, q);
    NamesSeparatePorts(d, Abs(p), e, Abs(q));
  }

  /** So a negative port collides with its absolute value. */
  lemma NegativePortsCollide(d: string, p: int)
    requires p > 0
    ensures EntryName(d, -p) == EntryName(d, p)
  {
    NameOfAbsolutePort(d, -p);
  }
}
