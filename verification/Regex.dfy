/**
  The backtracking matcher of src-rp/lib/regex/re.c over compiled patterns.

  A pattern is the sequence of compiled symbols in front of the UNUSED sentinel, a text the
  characters in front of the terminating zero.  The matcher is compared with a declarative
  meaning: a list of pieces, each fitting one stretch of the text.
*/
module Regex {

  datatype Symbol =
    | Dot | Begin | End | QuestionMark | Star | Plus
    | Char(ch: char) | CharClass(ccl: string) | InvCharClass(ccl: string)
    | Digit | NotDigit | Alpha | NotAlpha | Whitespace | NotWhitespace

  // ---------------------------------------------------------------- one character

  predicate IsDigit(c: char) { '0' <= c <= '9' }

  predicate IsAlpha(c: char) { 'a' <= c <= 'z' || 'A' <= c <= 'Z' }

  predicate IsSpace(c: char) { c == ' ' || 9 as char <= c <= 13 as char }

  predicate IsAlphaNum(c: char) { c == '_' || IsAlpha(c) || IsDigit(c) }

  const NUL: char := 0 as char

  /** The character at `i` of a string, zero at either end. */
  function At(s: string, i: int): char { if 0 <= i < |s| then s[i] else NUL }

  predicate InRange(c: char, s: string, i: int) {
    c != '-' && At(s, i) != NUL && At(s, i) != '-' && At(s, i + 1) == '-' && At(s, i + 2) != NUL
    && At(s, i) <= c <= At(s, i + 2)
  }

  predicate IsMetaChar(c: char) { c == 's' || c == 'S' || c == 'w' || c == 'W' || c == 'd' || c == 'D' }

  predicate FitsMetaChar(c: char, m: char) {
    match m
    case 'd' => IsDigit(c)
    case 'D' => !IsDigit(c)
    case 'w' => IsAlphaNum(c)
    case 'W' => !IsAlphaNum(c)
    case 's' => IsSpace(c)
    case 'S' => !IsSpace(c)
    case _ => c == m
  }

  /** The characters of each set, by their codes. */
  lemma MetaCharSets(c: char)
    ensures FitsMetaChar(c, 'd') <==> 48 <= c as int <= 57
    ensures FitsMetaChar(c, 'w') <==> 48 <= c as int <= 57 || 65 <= c as int <= 90 || 97 <= c as int <= 122 || c as int == 95
    ensures FitsMetaChar(c, 's') <==> 9 <= c as int <= 13 || c as int == 32
    ensures FitsMetaChar(c, 'D') == !FitsMetaChar(c, 'd')
    ensures FitsMetaChar(c, 'W') == !FitsMetaChar(c, 'w')
    ensures FitsMetaChar(c, 'S') == !FitsMetaChar(c, 's')
    ensures forall m :: m !in {'d', 'D', 'w', 'W', 's', 'S'} ==> (FitsMetaChar(c, m) <==> c == m)
  { }

  /** Membership of `c` in the class text `s` from position `i` on, as the class loop decides it. */
  predicate InClass(c: char, s: string, i: nat)
    decreases |s| - i
  {
    if InRange(c, s, i) then true
    else if At(s, i) == '\\' then
      FitsMetaChar(c, At(s, i + 1)) || (c == At(s, i + 1) && !IsMetaChar(c))
      || (At(s, i + 1) != NUL && InClass(c, s, i + 2))
    else if c == At(s, i) then
      if c == '-' then At(s, i - 1) == NUL || At(s, i + 1) == NUL else true
    else At(s, i) != NUL && InClass(c, s, i + 1)
  }

  /** `matchcharclass` */
  method MatchCharClass(c: char, s: string) returns (found: bool)
    ensures found <==> InClass(c, s, 0)
  {
    var i := 0;
    while true
      invariant i <= |s| + 1
      invariant InClass(c, s, 0) <==> InClass(c, s, i)
      decreases |s| + 2 - i
    {
      if InRange(c, s, i) {
        return true;
      } else if At(s, i) == '\\' {
        i := i + 1;
        if FitsMetaChar(c, At(s, i)) {
          return true;
        } else if c == At(s, i) && !IsMetaChar(c) {
          return true;
        }
      } else if c == At(s, i) {
        if c == '-' {
          return At(s, i - 1) == NUL || At(s, i + 1) == NUL;
        } else {
          return true;
        }
      }
      if At(s, i) == NUL { return false; }
      i := i + 1;
    }
  }

  // ---------------------------------------------------------------- what a class text means

  /** What a class is written with: characters, ranges and escapes. */
  datatype Element = Single(c: char) | Range(lo: char, hi: char) | Escape(m: char)

  predicate Ordinary(c: char) { c != '-' && c != '\\' && c != NUL }

  predicate Proper(x: Element) {
    match x
    case Single(c) => Ordinary(c)
    case Range(lo, hi) => Ordinary(lo) && Ordinary(hi)
    case Escape(m) => m != NUL
  }

  predicate AllProper(xs: seq<Element>) { forall k :: 0 <= k < |xs| ==> Proper(xs[k]) }

  function ElementText(x: Element): (s: string)
    ensures |s| >= 1
  {
    match x
    case Single(c) => [c]
    case Range(lo, hi) => [lo, '-', hi]
    case Escape(m) => ['\\', m]
  }

  function ElementsText(xs: seq<Element>): string {
    if xs == [] then "" else ElementText(xs[0]) + ElementsText(xs[1..])
  }

  function DashIf(b: bool): string { if b then "-" else "" }

  /** The characters an element stands for; of a descending range only the two ends. */
  predicate Has(x: Element, c: char) {
    match x
    case Single(d) => c == d
    case Range(lo, hi) => if lo <= hi then lo <= c <= hi && c != '-' else c == lo || c == hi
    case Escape(m) => FitsMetaChar(c, m)
  }

  /** An escaped dash with `next` behind it is also taken for a range from the backslash. */
  predicate Strays(x: Element, next: char, c: char) { x == Escape('-') && next != NUL && '\\' <= c <= next }

  predicate HasAt(xs: seq<Element>, k: nat, c: char)
    requires k < |xs|
  {
    Has(xs[k], c) || (k + 1 < |xs| && Strays(xs[k], ElementText(xs[k + 1])[0], c))
  }

  predicate NoRange(xs: seq<Element>, n: nat)
    requires n <= |xs|
  {
    forall j :: 0 <= j < n ==> !xs[j].Range?
  }

  /** Some element has the character; a dash is not looked for behind a range. */
  predicate Member(c: char, xs: seq<Element>) {
    exists k :: 0 <= k < |xs| && HasAt(xs, k, c) && (c == '-' ==> NoRange(xs, k))
  }

  lemma MemberFirst(c: char, xs: seq<Element>)
    requires xs != []
    ensures Member(c, xs) <==> HasAt(xs, 0, c) || (!(c == '-' && xs[0].Range?) && Member(c, xs[1..]))
  {
    var rest := xs[1..];
    if k :| 0 < k < |xs| && HasAt(xs, k, c) && (c == '-' ==> NoRange(xs, k)) {
      assert rest[k - 1] == xs[k] && (k < |rest| ==> rest[k] == xs[k + 1]);
      assert HasAt(rest, k - 1, c);
      assert c == '-' ==> forall j :: 0 <= j < k - 1 ==> rest[j] == xs[j + 1];
    }
    if k :| 0 <= k < |rest| && HasAt(rest, k, c) && (c == '-' ==> NoRange(rest, k)) && !(c == '-' && xs[0].Range?) {
      assert rest[k] == xs[k + 1] && (k + 1 < |rest| ==> rest[k + 1] == xs[k + 2]);
      assert HasAt(xs, k + 1, c);
      assert c == '-' ==> forall j :: 1 <= j < k + 1 ==> xs[j] == rest[j - 1];
    }
  }

  /** What the loop makes of one element when no dash but the last character follows it. */
  lemma ElementMeans(c: char, x: Element, s: string, i: nat)
    requires c != NUL && Proper(x) && i + |ElementText(x)| <= |s| && s[i..i + |ElementText(x)|] == ElementText(x)
    requires At(s, i + |ElementText(x)|) == '-' ==> At(s, i + |ElementText(x)| + 1) == NUL
    ensures var n := i + |ElementText(x)|;
      InClass(c, s, i) <==>
        Has(x, c) || Strays(x, At(s, n), c) || (!(c == '-' && x.Range?) && InClass(c, s, n))
  {
    var w := ElementText(x);
    assert forall k :: 0 <= k < |w| ==> s[i + k] == w[k];
    match x
    case Single(_) =>
    case Range(_, _) =>
      assert At(s, i) == w[0] && At(s, i + 1) == w[1] && At(s, i + 2) == w[2];
      assert InClass(c, s, i + 2) <==> c == w[2] || InClass(c, s, i + 3);
    case Escape(_) =>
      assert At(s, i) == w[0] && At(s, i + 1) == w[1];
  }

  /** The loop at the end of a class, where there may be a dash. */
  lemma EndMeans(c: char, s: string, i: nat, dash: bool)
    requires c != NUL && i <= |s| && s[i..] == DashIf(dash)
    ensures InClass(c, s, i) <==> c == '-' && dash
  {
    if dash {
      assert s[i] == s[i..][0] == '-' && |s| == i + 1;
      assert !InClass(c, s, i + 1);
    } else {
      assert |s| == i;
    }
  }

  /** `have` is whether the text behind the first element has `c`. */
  lemma FirstMeans(c: char, xs: seq<Element>, next: char, dash: bool, have: bool)
    requires xs != [] && (xs[1..] != [] ==> next == ElementText(xs[1])[0])
    requires xs[1..] == [] ==> next == if dash then '-' else NUL
    requires have <==> Member(c, xs[1..]) || (c == '-' && dash && NoRange(xs[1..], |xs| - 1))
    ensures Member(c, xs) || (c == '-' && dash && NoRange(xs, |xs|)) <==>
            Has(xs[0], c) || Strays(xs[0], next, c) || (!(c == '-' && xs[0].Range?) && have)
  {
    MemberFirst(c, xs);
    NoRangeFirst(xs);
  }

  lemma {:induction false} ElementsMean(c: char, xs: seq<Element>, before: string, dash: bool)
    requires c != NUL && AllProper(xs)
    ensures InClass(c, before + ElementsText(xs) + DashIf(dash), |before|) <==>
            Member(c, xs) || (c == '-' && dash && NoRange(xs, |xs|))
    decreases |xs|
  {
    var s, i := before + ElementsText(xs) + DashIf(dash), |before|;
    if xs == [] {
      assert s[i..] == DashIf(dash);
      EndMeans(c, s, i, dash);
    } else {
      var next := before + ElementText(xs[0]);
      FirstText(xs, s, before, dash);
      ElementsMean(c, xs[1..], next, dash);
      FirstElementMeans(c, xs, s, before, dash);
    }
  }

  lemma FirstElementMeans(c: char, xs: seq<Element>, s: string, before: string, dash: bool)
    requires c != NUL && AllProper(xs) && xs != [] && s == before + ElementsText(xs) + DashIf(dash)
    requires var next := before + ElementText(xs[0]);
      InClass(c, s, |next|) <==> Member(c, xs[1..]) || (c == '-' && dash && NoRange(xs[1..], |xs| - 1))
    ensures InClass(c, s, |before|) <==> Member(c, xs) || (c == '-' && dash && NoRange(xs, |xs|))
  {
    var next := before + ElementText(xs[0]);
    FirstText(xs, s, before, dash);
    BehindFirst(xs[1..], s, next, dash);
    ElementMeans(c, xs[0], s, |before|);
    FirstMeans(c, xs, At(s, |next|), dash, InClass(c, s, |next|));
  }

  lemma FirstText(xs: seq<Element>, s: string, before: string, dash: bool)
    requires xs != [] && s == before + ElementsText(xs) + DashIf(dash)
    ensures var w := ElementText(xs[0]);
      && s == (before + w) + ElementsText(xs[1..]) + DashIf(dash)
      && |before| + |w| <= |s| && s[|before|..|before| + |w|] == w
  { }

  lemma NoRangeFirst(xs: seq<Element>)
    requires xs != []
    ensures NoRange(xs, |xs|) <==> !xs[0].Range? && NoRange(xs[1..], |xs| - 1)
  {
    assert forall j :: 0 <= j < |xs| - 1 ==> xs[1..][j] == xs[j + 1];
  }

  lemma BehindFirst(xs: seq<Element>, s: string, before: string, dash: bool)
    requires AllProper(xs) && s == before + ElementsText(xs) + DashIf(dash)
    ensures xs != [] ==> At(s, |before|) == ElementText(xs[0])[0] != '-'
    ensures xs == [] ==> At(s, |before|) == (if dash then '-' else NUL) && At(s, |before| + 1) == NUL
  {
    if xs != [] { assert Proper(xs[0]) && s[|before|] == ElementText(xs[0])[0]; }
  }

  /** The class loop decides membership for every class written with elements, with or without a dash
      in front and at the end.  The one at the end counts only when there is no range. */
  lemma ClassMeans(c: char, front: bool, xs: seq<Element>, dash: bool)
    requires c != NUL && AllProper(xs)
    ensures InClass(c, DashIf(front) + ElementsText(xs) + DashIf(dash), 0) <==>
            Member(c, xs) || (c == '-' && (front || (dash && NoRange(xs, |xs|))))
  {
    ElementsMean(c, xs, DashIf(front), dash);
    var s := DashIf(front) + ElementsText(xs) + DashIf(dash);
    if front {
      assert s[0] == '-';
    }
  }

  /** What an escaped dash does to the loop, character by character... */
  lemma EscapedDash(c: char, s: string, i: nat)
    requires c != NUL && At(s, i) == '\\' && At(s, i + 1) == '-'
    ensures InClass(c, s, i) <==>
            c == '-' || (At(s, i + 2) != NUL && '\\' <= c <= At(s, i + 2)) || InClass(c, s, i + 2)
  { }

  /** The class from `i` on has the dash and what it has from `rest` on. */
  ghost predicate StandsForDash(s: string, i: nat, rest: nat) {
    forall c :: c != NUL ==> (InClass(c, s, i) <==> c == '-' || InClass(c, s, rest))
  }

  ghost predicate HasAllUpTo(s: string, rest: nat, hi: char) {
    forall c :: '\\' <= c <= hi ==> InClass(c, s, rest)
  }

  /** ...so it stands for a dash exactly when the rest of the class has the characters from the backslash
      up to the one that follows; in particular when that one is below the backslash, or there is none. */
  lemma EscapedDashIff(s: string, i: nat)
    requires At(s, i) == '\\' && At(s, i + 1) == '-'
    ensures StandsForDash(s, i, i + 2) <==> HasAllUpTo(s, i + 2, At(s, i + 2))
  {
    var rest: nat, hi := i + 2, At(s, i + 2);
    if StandsForDash(s, i, i + 2) {
      forall c | '\\' <= c <= hi ensures InClass(c, s, rest) {
        EscapedDash(c, s, i);
      }
    }
    if HasAllUpTo(s, i + 2, hi) {
      forall c | c != NUL ensures InClass(c, s, i) <==> c == '-' || InClass(c, s, i + 2) {
        EscapedDash(c, s, i);
      }
    }
  }

  /** The class `\-z` has a letter that is neither a dash nor in the rest. */
  lemma EscapedDashExample()
    ensures InClass('a', "\\-z", 0) && !InClass('a', "\\-z", 2)
  {
    assert !InClass('a', "\\-z", 3);
  }

  // ---------------------------------------------------------------- one symbol

  /** Symbols that stand for one character. */
  predicate Atom(p: Symbol) { !p.Begin? && !p.End? && !Quantifier(p) }

  predicate Quantifier(p: Symbol) { p.QuestionMark? || p.Star? || p.Plus? }

  predicate MatchesOne(p: Symbol, c: char)
    requires Atom(p)
  {
    match p
    case Dot => true
    case CharClass(ccl) => InClass(c, ccl, 0)
    case InvCharClass(ccl) => !InClass(c, ccl, 0)
    case Digit => IsDigit(c)
    case NotDigit => !IsDigit(c)
    case Alpha => IsAlphaNum(c)
    case NotAlpha => !IsAlphaNum(c)
    case Whitespace => IsSpace(c)
    case NotWhitespace => !IsSpace(c)
    case Char(ch) => ch == c
  }

  /** A set as a symbol of its own is the same set as in a class. */
  lemma SymbolSets(c: char)
    ensures MatchesOne(Digit, c) == FitsMetaChar(c, 'd') && MatchesOne(NotDigit, c) == FitsMetaChar(c, 'D')
    ensures MatchesOne(Alpha, c) == FitsMetaChar(c, 'w') && MatchesOne(NotAlpha, c) == FitsMetaChar(c, 'W')
    ensures MatchesOne(Whitespace, c) == FitsMetaChar(c, 's') && MatchesOne(NotWhitespace, c) == FitsMetaChar(c, 'S')
  { }

  /** `matchone` */
  method MatchOne(p: Symbol, c: char) returns (found: bool)
    requires Atom(p)
    ensures found <==> MatchesOne(p, c)
  {
    match p
    case CharClass(ccl) =>
      found := MatchCharClass(c, ccl);
    case InvCharClass(ccl) =>
      var inside := MatchCharClass(c, ccl);
      found := !inside;
    case _ =>
      found := MatchesOne(p, c);
  }

  // ---------------------------------------------------------------- what a pattern means

  datatype Times = Once | Optional | AnyTimes | AtLeastOnce

  datatype Piece = Piece(p: Symbol, times: Times)

  /** A quantifier stands behind an atom, and `$` only at the end. */
  predicate WellFormed(pat: seq<Symbol>) {
    if pat == [] || pat == [End] then true
    else Atom(pat[0]) && if Quantified(pat) then WellFormed(pat[2..]) else WellFormed(pat[1..])
  }

  predicate Quantified(pat: seq<Symbol>) { |pat| > 1 && Quantifier(pat[1]) }

  function TimesOf(q: Symbol): Times
    requires Quantifier(q)
  {
    match q
    case QuestionMark => Optional
    case Star => AnyTimes
    case Plus => AtLeastOnce
  }

  function Pieces(pat: seq<Symbol>): seq<Piece>
    requires WellFormed(pat)
  {
    if pat == [] || pat == [End] then []
    else if Quantified(pat) then [Piece(pat[0], TimesOf(pat[1]))] + Pieces(pat[2..])
    else [Piece(pat[0], Once)] + Pieces(pat[1..])
  }

  /** Whether the pattern ends with `$`. */
  predicate Pinned(pat: seq<Symbol>) { pat != [] && pat[|pat| - 1] == End }

  predicate Sound(ps: seq<Piece>) { forall i :: 0 <= i < |ps| ==> Atom(ps[i].p) }

  /** Every character of `text[i..k]` matches the symbol. */
  predicate Stretch(p: Symbol, text: string, i: nat, k: nat)
    requires Atom(p)
  {
    i <= k <= |text| && forall m :: i <= m < k ==> MatchesOne(p, text[m])
  }

  predicate Fits(piece: Piece, text: string, i: nat, k: nat)
    requires Atom(piece.p)
  {
    && Stretch(piece.p, text, i, k)
    && match piece.times
       case Once => k == i + 1
       case Optional => k <= i + 1
       case AnyTimes => true
       case AtLeastOnce => k >= i + 1
  }

  /** The pieces fit `text[i..j]` one after the other; when pinned, `j` must be the end of the text. */
  ghost predicate Denotes(ps: seq<Piece>, pinned: bool, text: string, i: nat, j: nat)
    requires Sound(ps)
  {
    if ps == [] then i == j <= |text| && (pinned ==> j == |text|)
    else exists k: nat :: Fits(ps[0], text, i, k) && Denotes(ps[1..], pinned, text, k, j)
  }

  /** Some stretch of the text from `i` on has the meaning of the pieces. */
  ghost predicate Accepts(ps: seq<Piece>, pinned: bool, text: string, i: nat)
    requires Sound(ps)
  {
    exists j: nat :: Denotes(ps, pinned, text, i, j)
  }

  lemma {:induction false} PiecesSound(pat: seq<Symbol>)
    requires WellFormed(pat)
    ensures Sound(Pieces(pat))
    decreases |pat|
  {
    if pat == [] || pat == [End] {
    } else if Quantified(pat) {
      PiecesSound(pat[2..]);
    } else {
      PiecesSound(pat[1..]);
    }
  }

  /** The pattern matches the text at `i`. */
  ghost predicate Matches(pat: seq<Symbol>, text: string, i: nat)
    requires WellFormed(pat)
  {
    PiecesSound(pat);
    Accepts(Pieces(pat), Pinned(pat), text, i)
  }

  lemma AcceptsFirst(ps: seq<Piece>, pinned: bool, text: string, i: nat)
    requires Sound(ps) && ps != []
    ensures Accepts(ps, pinned, text, i) <==>
            exists k: nat :: Fits(ps[0], text, i, k) && Accepts(ps[1..], pinned, text, k)
  {
    if Accepts(ps, pinned, text, i) {
      var j: nat :| Denotes(ps, pinned, text, i, j);
      var k: nat :| Fits(ps[0], text, i, k) && Denotes(ps[1..], pinned, text, k, j);
      assert Accepts(ps[1..], pinned, text, k);
    }
    if k: nat :| Fits(ps[0], text, i, k) && Accepts(ps[1..], pinned, text, k) {
      var j: nat :| Denotes(ps[1..], pinned, text, k, j);
      assert Denotes(ps, pinned, text, i, j);
    }
  }

  lemma MatchesEnd(pat: seq<Symbol>, text: string, i: nat)
    requires i <= |text| && (pat == [] || pat == [End])
    ensures Matches(pat, text, i) <==> (pat == [End] ==> i == |text|)
  {
    PiecesSound(pat);
    if pat == [End] ==> i == |text| {
      assert Denotes(Pieces(pat), Pinned(pat), text, i, i);
    }
  }

  /** The pieces of a pattern behind its first piece. */
  lemma TailPieces(pat: seq<Symbol>)
    requires WellFormed(pat) && pat != [] && pat != [End]
    ensures var rest := if Quantified(pat) then pat[2..] else pat[1..];
      WellFormed(rest) && Pieces(pat)[1..] == Pieces(rest) && Pinned(pat) == Pinned(rest)
  {
    var rest := if Quantified(pat) then pat[2..] else pat[1..];
    if rest == [] { assert pat[|pat| - 1] != End; } else { assert rest[|rest| - 1] == pat[|pat| - 1]; }
  }

  lemma AcceptsOnce(ps: seq<Piece>, pinned: bool, text: string, i: nat)
    requires Sound(ps) && ps != [] && ps[0].times == Once
    ensures Accepts(ps, pinned, text, i) <==>
            i < |text| && MatchesOne(ps[0].p, text[i]) && Accepts(ps[1..], pinned, text, i + 1)
  {
    AcceptsFirst(ps, pinned, text, i);
    if i < |text| && MatchesOne(ps[0].p, text[i]) {
      assert Fits(ps[0], text, i, i + 1);
    }
  }

  /** An atom without quantifier matches one character and leaves the rest to the rest. */
  lemma MatchesLiteral(pat: seq<Symbol>, text: string, i: nat)
    requires WellFormed(pat) && pat != [] && pat != [End] && !Quantified(pat)
    ensures Matches(pat, text, i) <==> i < |text| && MatchesOne(pat[0], text[i]) && Matches(pat[1..], text, i + 1)
  {
    PiecesSound(pat);
    TailPieces(pat);
    AcceptsOnce(Pieces(pat), Pinned(pat), text, i);
  }

  /** A quantified atom matches a stretch it allows and leaves the rest to the rest. */
  lemma MatchesQuantified(pat: seq<Symbol>, text: string, i: nat)
    requires WellFormed(pat) && Quantified(pat)
    ensures Matches(pat, text, i) <==>
            exists k: nat :: Fits(Piece(pat[0], TimesOf(pat[1])), text, i, k) && Matches(pat[2..], text, k)
  {
    PiecesSound(pat);
    TailPieces(pat);
    AcceptsFirst(Pieces(pat), Pinned(pat), text, i);
  }

  // ---------------------------------------------------------------- the change to *matchlength

  /** The first position from `i` on that the symbol does not match. */
  function StretchEnd(p: Symbol, text: string, i: nat): (k: nat)
    requires Atom(p) && i <= |text|
    ensures i <= k <= |text| && (k < |text| ==> !MatchesOne(p, text[k]))
    ensures forall m :: i <= m < k ==> MatchesOne(p, text[m])
    decreases |text| - i
  {
    if i < |text| && MatchesOne(p, text[i]) then StretchEnd(p, text, i + 1) else i
  }

  /**
    The change one call of `matchpattern` makes to `*matchlength`, whether it succeeds or fails,
    when it has already passed `taken` atoms.
  */
  ghost function Change(pat: seq<Symbol>, text: string, i: nat, taken: nat): int
    requires WellFormed(pat) && i <= |text|
    decreases |pat|, 0, 0
  {
    if pat == [] || pat == [End] then taken
    else if Quantified(pat) then
      taken + match pat[1]
              case QuestionMark => OptionalChange(pat[0], pat[2..], text, i)
              case Star =>
                if Matches(pat, text, i) then
                  var k := StretchEnd(pat[0], text, i); BackOff(pat[2..], text, i, k, k - i)
                else 0
              case Plus => var k := StretchEnd(pat[0], text, i); BackOff(pat[2..], text, i + 1, k, k - i)
    else if i < |text| && MatchesOne(pat[0], text[i]) then Change(pat[1..], text, i + 1, taken + 1)
    else 0
  }

  ghost function OptionalChange(p: Symbol, rest: seq<Symbol>, text: string, i: nat): int
    requires Atom(p) && WellFormed(rest) && i <= |text|
    decreases |rest|, 1, 0
  {
    var skip := Change(rest, text, i, 0);
    if Matches(rest, text, i) || i == |text| || !MatchesOne(p, text[i]) then skip
    else skip + Change(rest, text, i + 1, 0) + if Matches(rest, text, i + 1) then 1 else 0
  }

  /** Trying the rest at `k`, `k - 1`, ... down to `low`, when `d` characters are counted at `k`. */
  ghost function BackOff(rest: seq<Symbol>, text: string, low: nat, k: int, d: int): int
    requires WellFormed(rest) && k <= |text|
    decreases |rest|, 1, k - low + 1
  {
    if k < low then d
    else if Matches(rest, text, k) then d + Change(rest, text, k, 0)
    else BackOff(rest, text, low, k - 1, d + Change(rest, text, k, 0) - 1)
  }

  /** `*matchlength` */
  class Length {
    var n: int
    constructor () { n := 0; }
  }

  // ---------------------------------------------------------------- the matcher

  /** `matchpattern` */
  method MatchPattern(pat: seq<Symbol>, text: string, i: nat, len: Length) returns (ok: bool)
    requires WellFormed(pat) && i <= |text|
    modifies len
    ensures ok <==> Matches(pat, text, i)
    ensures len.n == old(len.n) + Change(pat, text, i, 0)
    decreases |pat|, 0
  {
    var pre := len.n;
    var rest, t := pat, i;
    while true
      invariant |rest| <= |pat| && WellFormed(rest) && i <= t <= |text|
      invariant len.n == pre + t - i
      invariant Matches(pat, text, i) <==> Matches(rest, text, t)
      invariant Change(pat, text, i, 0) == Change(rest, text, t, t - i)
      decreases |rest|
    {
      if rest == [] {
        MatchesEnd(rest, text, t);
        return true;
      } else if |rest| > 1 && rest[1].QuestionMark? {
        assert rest == [rest[0], QuestionMark] + rest[2..];
        ok := MatchQuestion(rest[0], rest[2..], text, t, len);
        return;
      } else if |rest| > 1 && rest[1].Star? {
        assert rest == [rest[0], Star] + rest[2..];
        ok := MatchStar(rest[0], rest[2..], text, t, len);
        return;
      } else if |rest| > 1 && rest[1].Plus? {
        assert rest == [rest[0], Plus] + rest[2..];
        ok := MatchPlus(rest[0], rest[2..], text, t, len);
        return;
      } else if rest == [End] {
        MatchesEnd(rest, text, t);
        return t == |text|;
      }
      MatchesLiteral(rest, text, t);
      len.n := len.n + 1;
      if t == |text| { break; }
      var one := MatchOne(rest[0], text[t]);
      if !one { break; }
      rest, t := rest[1..], t + 1;
    }
    len.n := pre;
    return false;
  }

  /** The pattern that starts with a quantified atom. */
  function Repeat(p: Symbol, q: Symbol, pat: seq<Symbol>): (r: seq<Symbol>)
    requires Atom(p) && Quantifier(q) && WellFormed(pat)
    ensures WellFormed(r) && Quantified(r) && r[2..] == pat
  {
    var r := [p, q] + pat;
    assert r[2..] == pat;
    r
  }

  /** The loop that `matchstar` and `matchplus` begin with: as many characters as match. */
  method TakeStretch(p: Symbol, text: string, i: nat, len: Length) returns (t: nat)
    requires Atom(p) && i <= |text|
    modifies len
    ensures t == StretchEnd(p, text, i) && len.n == old(len.n) + t - i
  {
    t := i;
    while t < |text|
      invariant i <= t <= |text| && StretchEnd(p, text, t) == StretchEnd(p, text, i)
      invariant len.n == old(len.n) + t - i
    {
      var one := MatchOne(p, text[t]);
      if !one { break; }
      t := t + 1;
      len.n := len.n + 1;
    }
  }

  /** `matchstar` */
  method MatchStar(p: Symbol, pat: seq<Symbol>, text: string, i: nat, len: Length) returns (ok: bool)
    requires Atom(p) && WellFormed(pat) && i <= |text|
    modifies len
    ensures ok <==> Matches(Repeat(p, Star, pat), text, i)
    ensures len.n == old(len.n) + Change(Repeat(p, Star, pat), text, i, 0)
    decreases |pat|, 1
  {
    var prelen := len.n;
    var end := TakeStretch(p, text, i, len);
    var t: int := end;
    StarOrPlus(p, Star, pat, text, i);
    StarChange(p, pat, text, i);
    while t >= i
      invariant i - 1 <= t <= end
      invariant !MatchesWithin(pat, text, t + 1, end)
      invariant BackOff(pat, text, i, t, len.n - prelen) == BackOff(pat, text, i, end, end - i)
      decreases t
    {
      ghost var d := len.n - prelen;
      ok := MatchPattern(pat, text, t, len);
      if !ok { BackOffStep(pat, text, i, t, end, d); }
      t := t - 1;
      if ok { return true; }
      len.n := len.n - 1;
    }
    len.n := prelen;
    return false;
  }

  /** `matchplus` */
  method MatchPlus(p: Symbol, pat: seq<Symbol>, text: string, i: nat, len: Length) returns (ok: bool)
    requires Atom(p) && WellFormed(pat) && i <= |text|
    modifies len
    ensures ok <==> Matches(Repeat(p, Plus, pat), text, i)
    ensures len.n == old(len.n) + Change(Repeat(p, Plus, pat), text, i, 0)
    decreases |pat|, 1
  {
    ghost var prelen := len.n;
    var end := TakeStretch(p, text, i, len);
    var t: int := end;
    StarOrPlus(p, Plus, pat, text, i);
    PlusChange(p, pat, text, i);
    while t > i
      invariant i <= t <= end
      invariant !MatchesWithin(pat, text, t + 1, end)
      invariant BackOff(pat, text, i + 1, t, len.n - prelen) == BackOff(pat, text, i + 1, end, end - i)
      decreases t
    {
      ghost var d := len.n - prelen;
      ok := MatchPattern(pat, text, t, len);
      if !ok { BackOffStep(pat, text, i + 1, t, end, d); }
      t := t - 1;
      if ok { return true; }
      len.n := len.n - 1;
    }
    return false;
  }

  /** One round of the loop that backs off. */
  lemma BackOffStep(pat: seq<Symbol>, text: string, low: nat, t: int, end: nat, d: int)
    requires WellFormed(pat) && low <= t <= end <= |text|
    requires !MatchesWithin(pat, text, t + 1, end) && !Matches(pat, text, t)
    ensures !MatchesWithin(pat, text, t, end)
    ensures BackOff(pat, text, low, t, d) == BackOff(pat, text, low, t - 1, d + Change(pat, text, t, 0) - 1)
  { }

  lemma {:induction false} StretchWithin(p: Symbol, text: string, i: nat, k: nat)
    requires Atom(p) && i <= |text| && Stretch(p, text, i, k)
    ensures k <= StretchEnd(p, text, i)
    decreases |text| - i
  {
    if i == k {
    } else {
      StretchWithin(p, text, i + 1, k);
    }
  }

  lemma StarChange(p: Symbol, pat: seq<Symbol>, text: string, i: nat)
    requires Atom(p) && WellFormed(pat) && i <= |text|
    ensures var end := StretchEnd(p, text, i);
      Change(Repeat(p, Star, pat), text, i, 0)
      == if Matches(Repeat(p, Star, pat), text, i) then BackOff(pat, text, i, end, end - i) else 0
  { }

  lemma PlusChange(p: Symbol, pat: seq<Symbol>, text: string, i: nat)
    requires Atom(p) && WellFormed(pat) && i <= |text|
    ensures var end := StretchEnd(p, text, i);
      Change(Repeat(p, Plus, pat), text, i, 0) == BackOff(pat, text, i + 1, end, end - i)
  { }

  /** The pattern matches at some index from `low` to `high`. */
  ghost predicate MatchesWithin(pat: seq<Symbol>, text: string, low: int, high: int)
    requires WellFormed(pat)
  {
    exists k: nat :: low <= k <= high && Matches(pat, text, k)
  }

  /** A repeat matches when the rest matches behind one of the stretches up to the longest. */
  lemma StarOrPlus(p: Symbol, q: Symbol, pat: seq<Symbol>, text: string, i: nat)
    requires Atom(p) && (q == Star || q == Plus) && WellFormed(pat) && i <= |text|
    ensures Matches(Repeat(p, q, pat), text, i) <==>
            MatchesWithin(pat, text, if q == Star then i else i + 1, StretchEnd(p, text, i))
  {
    var end := StretchEnd(p, text, i);
    MatchesQuantified(Repeat(p, q, pat), text, i);
    forall k: nat | Fits(Piece(p, TimesOf(q)), text, i, k) ensures k <= end {
      StretchWithin(p, text, i, k);
    }
    forall k: nat | (if q == Star then i else i + 1) <= k <= end ensures Fits(Piece(p, TimesOf(q)), text, i, k) { }
  }

  /** `matchquestion` */
  method MatchQuestion(p: Symbol, pat: seq<Symbol>, text: string, i: nat, len: Length) returns (ok: bool)
    requires Atom(p) && WellFormed(pat) && i <= |text|
    modifies len
    ensures ok <==> Matches(Repeat(p, QuestionMark, pat), text, i)
    ensures len.n == old(len.n) + Change(Repeat(p, QuestionMark, pat), text, i, 0)
    decreases |pat|, 1
  {
    MatchesQuestion(p, pat, text, i);
    ok := MatchPattern(pat, text, i, len);
    if ok { return true; }
    if i < |text| {
      var one := MatchOne(p, text[i]);
      if one {
        ok := MatchPattern(pat, text, i + 1, len);
        if ok {
          len.n := len.n + 1;
          return true;
        }
      }
    }
    return false;
  }

  lemma MatchesQuestion(p: Symbol, pat: seq<Symbol>, text: string, i: nat)
    requires Atom(p) && WellFormed(pat) && i <= |text|
    ensures Matches(Repeat(p, QuestionMark, pat), text, i) <==>
            Matches(pat, text, i) || (i < |text| && MatchesOne(p, text[i]) && Matches(pat, text, i + 1))
  {
    MatchesQuantified(Repeat(p, QuestionMark, pat), text, i);
    assert Fits(Piece(p, Optional), text, i, i);
    if i < |text| && MatchesOne(p, text[i]) { assert Fits(Piece(p, Optional), text, i, i + 1); }
  }

  /** The changes to `*matchlength` of the calls at indices below `n`, one after the other. */
  ghost function TotalChange(pat: seq<Symbol>, text: string, n: nat): int
    requires WellFormed(pat) && n <= |text| + 1
  {
    if n == 0 then 0 else TotalChange(pat, text, n - 1) + Change(pat, text, n - 1, 0)
  }

  /** The pattern can match at some index below `n`. */
  ghost predicate MatchesBelow(pat: seq<Symbol>, text: string, n: nat)
    requires WellFormed(pat)
  {
    exists i: nat :: i < n && Matches(pat, text, i)
  }

  /**
    `re_matchp`.  Anchored patterns are tried at 0 only.  Others give the leftmost index at which
    they match, unless that is the end of the text: a match there is reported as none.
  */
  method ReMatchP(pattern: seq<Symbol>, text: string, len: Length) returns (index: int)
    requires WellFormed(if pattern != [] && pattern[0] == Begin then pattern[1..] else pattern)
    modifies len
    ensures pattern != [] && pattern[0] == Begin ==>
      index == (if Matches(pattern[1..], text, 0) then 0 else -1) && len.n == Change(pattern[1..], text, 0, 0)
    ensures pattern == [] || pattern[0] != Begin ==>
      -1 <= index < |text|
      && (index >= 0 ==> Matches(pattern, text, index) && !MatchesBelow(pattern, text, index))
      && (index == -1 ==> !MatchesBelow(pattern, text, |text|))
      && len.n == TotalChange(pattern, text, 1 + if index >= 0 then index else |text|)
  {
    len.n := 0;
    if pattern != [] && pattern[0] == Begin {
      var ok := MatchPattern(pattern[1..], text, 0, len);
      return if ok then 0 else -1;
    } else {
      var idx := -1;
      while true
        invariant -1 <= idx < |text| && !MatchesBelow(pattern, text, idx + 1)
        invariant len.n == TotalChange(pattern, text, idx + 1)
        decreases |text| - idx
      {
        idx := idx + 1;
        var ok := MatchPattern(pattern, text, idx, len);
        if ok {
          if idx == |text| { return -1; }
          return idx;
        }
        if idx == |text| { break; }
      }
      return -1;
    }
  }

  // ---------------------------------------------------------------- when *matchlength is the length of the match

  /** Every piece may match nothing. */
  predicate CannotFail(pat: seq<Symbol>)
    requires WellFormed(pat)
  {
    pat == [] || (Quantified(pat) && pat[1] != Plus && CannotFail(pat[2..]))
  }

  /** Atoms without quantifier, followed by a part that cannot fail. */
  predicate Plain(pat: seq<Symbol>)
    requires WellFormed(pat)
  {
    CannotFail(pat) || (pat != [End] && !Quantified(pat) && Plain(pat[1..]))
  }

  /** A failing call leaves `*matchlength` as it found it, whatever the text. */
  predicate Restoring(pat: seq<Symbol>)
    requires WellFormed(pat)
  {
    Plain(pat) || pat == [End] || (Quantified(pat) && (pat[1] == Star || Restoring(pat[2..])))
  }

  /** Behind each quantifier comes a pattern whose failing calls leave `*matchlength` alone. */
  predicate Exact(pat: seq<Symbol>)
    requires WellFormed(pat)
  {
    if pat == [] || pat == [End] then true
    else if Quantified(pat) then Restoring(pat[2..]) && Exact(pat[2..])
    else Exact(pat[1..])
  }

  /**
    The end the matcher aims for: `?` skips its atom when the rest matches without it, `*` and `+`
    take the longest stretch behind which the rest matches.
  */
  ghost predicate Prefers(ps: seq<Piece>, pinned: bool, text: string, i: nat, j: int)
    requires Sound(ps)
  {
    if ps == [] then i == j <= |text| && (pinned ==> j == |text|)
    else match ps[0].times
      case Once => Fits(ps[0], text, i, i + 1) && Prefers(ps[1..], pinned, text, i + 1, j)
      case Optional =>
        if i <= |text| && Accepts(ps[1..], pinned, text, i) then Prefers(ps[1..], pinned, text, i, j)
        else Fits(ps[0], text, i, i + 1) && Prefers(ps[1..], pinned, text, i + 1, j)
      case _ =>
        exists k: nat :: Longest(ps, pinned, text, i, k) && Prefers(ps[1..], pinned, text, k, j)
  }

  ghost predicate Longest(ps: seq<Piece>, pinned: bool, text: string, i: nat, k: nat)
    requires Sound(ps) && ps != []
  {
    && Fits(ps[0], text, i, k) && Accepts(ps[1..], pinned, text, k)
    && forall m: nat :: m > k && Fits(ps[0], text, i, m) ==> !Accepts(ps[1..], pinned, text, m)
  }

  /** `n` is the number of characters the matcher should take at `i`. */
  ghost predicate RightLength(pat: seq<Symbol>, text: string, i: nat, n: int)
    requires WellFormed(pat)
  {
    PiecesSound(pat);
    Prefers(Pieces(pat), Pinned(pat), text, i, i + n)
  }

  /** The preferred end is the end of a match, and there is only one. */
  lemma {:induction false} PrefersDenotes(ps: seq<Piece>, pinned: bool, text: string, i: nat, j: int)
    requires Sound(ps) && Prefers(ps, pinned, text, i, j)
    ensures i <= j <= |text| && Denotes(ps, pinned, text, i, j)
    ensures forall j' :: Prefers(ps, pinned, text, i, j') ==> j' == j
    decreases |ps|
  {
    if ps == [] {
    } else {
      var rest := ps[1..];
      if ps[0].times == AnyTimes || ps[0].times == AtLeastOnce {
        var k: nat :| Longest(ps, pinned, text, i, k) && Prefers(rest, pinned, text, k, j);
        PrefersDenotes(rest, pinned, text, k, j);
        assert Denotes(ps, pinned, text, i, j);
        forall j' | Prefers(ps, pinned, text, i, j') ensures j' == j {
          var k': nat :| Longest(ps, pinned, text, i, k') && Prefers(rest, pinned, text, k', j');
          assert k' == k;
        }
      } else if ps[0].times == Optional && Accepts(rest, pinned, text, i) && i <= |text| {
        PrefersDenotes(rest, pinned, text, i, j);
        assert Fits(ps[0], text, i, i);
      } else {
        PrefersDenotes(rest, pinned, text, i + 1, j);
      }
    }
  }

  lemma {:induction false} CannotFailMatches(pat: seq<Symbol>, text: string, i: nat)
    requires WellFormed(pat) && CannotFail(pat) && i <= |text|
    ensures Matches(pat, text, i)
    decreases |pat|
  {
    if pat == [] {
      MatchesEnd(pat, text, i);
    } else {
      CannotFailMatches(pat[2..], text, i);
      assert pat == Repeat(pat[0], pat[1], pat[2..]);
      if pat[1] == Star {
        StarOrPlus(pat[0], Star, pat[2..], text, i);
      } else {
        MatchesQuestion(pat[0], pat[2..], text, i);
      }
    }
  }

  lemma {:induction false} PlainFailsClean(pat: seq<Symbol>, text: string, i: nat, taken: nat)
    requires WellFormed(pat) && Plain(pat) && i <= |text| && !Matches(pat, text, i)
    ensures Change(pat, text, i, taken) == 0
    decreases |pat|
  {
    if CannotFail(pat) {
      CannotFailMatches(pat, text, i);
    } else {
      MatchesLiteral(pat, text, i);
      if i < |text| && MatchesOne(pat[0], text[i]) {
        PlainFailsClean(pat[1..], text, i + 1, taken + 1);
      }
    }
  }

  /** Backing off through failing calls that leave the count alone returns to the start. */
  lemma {:induction false} BackOffFails(rest: seq<Symbol>, text: string, low: nat, k: int, d: int)
    requires WellFormed(rest) && low - 1 <= k <= |text|
    requires forall m: nat :: low <= m <= k ==> !Matches(rest, text, m) && Change(rest, text, m, 0) == 0
    ensures BackOff(rest, text, low, k, d) == d - (k - low + 1)
    decreases k - low + 1
  {
    if k >= low { BackOffFails(rest, text, low, k - 1, d - 1); }
  }

  lemma {:induction false} FailureRestores(pat: seq<Symbol>, text: string, i: nat)
    requires WellFormed(pat) && Restoring(pat) && i <= |text| && !Matches(pat, text, i)
    ensures Change(pat, text, i, 0) == 0
    decreases |pat|
  {
    if Plain(pat) {
      PlainFailsClean(pat, text, i, 0);
    } else if Quantified(pat) {
      var p, rest := pat[0], pat[2..];
      assert pat == Repeat(p, pat[1], rest);
      if pat[1] == Plus {
        StarOrPlus(p, Plus, rest, text, i);
        var end := StretchEnd(p, text, i);
        forall m: nat | i + 1 <= m <= end ensures !Matches(rest, text, m) && Change(rest, text, m, 0) == 0 {
          FailureRestores(rest, text, m);
        }
        BackOffFails(rest, text, i + 1, end, end - i);
      } else if pat[1] == QuestionMark {
        MatchesQuestion(p, rest, text, i);
        FailureRestores(rest, text, i);
        if i < |text| && MatchesOne(p, text[i]) { FailureRestores(rest, text, i + 1); }
      }
    }
  }

  /** A call that succeeds adds to what was counted before. */
  lemma {:induction false} SuccessAdds(pat: seq<Symbol>, text: string, i: nat, taken: nat)
    requires WellFormed(pat) && i <= |text| && Matches(pat, text, i)
    ensures Change(pat, text, i, taken) == taken + Change(pat, text, i, 0)
    decreases |pat|
  {
    if pat != [] && pat != [End] && !Quantified(pat) {
      MatchesLiteral(pat, text, i);
      SuccessAdds(pat[1..], text, i + 1, taken + 1);
      SuccessAdds(pat[1..], text, i + 1, 1);
    }
  }

  /** The last position up to `k` where the rest matches. */
  ghost function LastMatch(rest: seq<Symbol>, text: string, low: nat, k: nat): (m: nat)
    requires WellFormed(rest) && MatchesWithin(rest, text, low, k)
    ensures low <= m <= k && Matches(rest, text, m) && !MatchesWithin(rest, text, m + 1, k)
    decreases k
  {
    if Matches(rest, text, k) then k else LastMatch(rest, text, low, k - 1)
  }

  /** What the failing calls leave in the count while backing off from `k` to the last match. */
  ghost function FailedSum(rest: seq<Symbol>, text: string, low: nat, k: int): int
    requires WellFormed(rest) && k <= |text|
    decreases k - low + 1
  {
    if k < low || Matches(rest, text, k) then 0 else Change(rest, text, k, 0) + FailedSum(rest, text, low, k - 1)
  }

  /** What failing calls leave in the count in a call that succeeds. */
  ghost function Excess(pat: seq<Symbol>, text: string, i: nat): int
    requires WellFormed(pat) && i <= |text| && Matches(pat, text, i)
    decreases |pat|
  {
    if pat == [] || pat == [End] then 0
    else if Quantified(pat) then
      var p, q, rest := pat[0], pat[1], pat[2..];
      assert pat == Repeat(p, q, rest);
      if q == QuestionMark then
        MatchesQuestion(p, rest, text, i);
        if Matches(rest, text, i) then Excess(rest, text, i)
        else Change(rest, text, i, 0) + Excess(rest, text, i + 1)
      else
        StarOrPlus(p, q, rest, text, i);
        var low, end := if q == Star then i else i + 1, StretchEnd(p, text, i);
        FailedSum(rest, text, low, end) + Excess(rest, text, LastMatch(rest, text, low, end))
    else
      MatchesLiteral(pat, text, i);
      Excess(pat[1..], text, i + 1)
  }

  /** Backing off stops at the last position where the rest matches. */
  lemma {:induction false} BackOffSucceeds(rest: seq<Symbol>, text: string, low: nat, k: nat, d: int)
    requires WellFormed(rest) && k <= |text| && MatchesWithin(rest, text, low, k)
    ensures var m := LastMatch(rest, text, low, k);
      BackOff(rest, text, low, k, d) == d - (k - m) + FailedSum(rest, text, low, k) + Change(rest, text, m, 0)
    decreases k
  {
    if Matches(rest, text, k) {
    } else {
      BackOffSucceeds(rest, text, low, k - 1, d + Change(rest, text, k, 0) - 1);
    }
  }

  /** A successful call adds the length of the match the preferences pick and what failing calls leave. */
  lemma {:induction false} LengthAndExcess(pat: seq<Symbol>, text: string, i: nat) returns (n: int)
    requires WellFormed(pat) && i <= |text| && Matches(pat, text, i)
    ensures RightLength(pat, text, i, n) && Change(pat, text, i, 0) == n + Excess(pat, text, i)
    decreases |pat|, 0
  {
    PiecesSound(pat);
    if pat == [] || pat == [End] {
      MatchesEnd(pat, text, i);
      n := 0;
    } else if Quantified(pat) {
      assert pat == Repeat(pat[0], pat[1], pat[2..]);
      if pat[1] == QuestionMark {
        n := OptionalLength(pat[0], pat[2..], text, i);
      } else {
        n := RepeatLength(pat[0], pat[1], pat[2..], text, i);
      }
    } else {
      MatchesLiteral(pat, text, i);
      SuccessAdds(pat[1..], text, i + 1, 1);
      n := LengthAndExcess(pat[1..], text, i + 1);
      n := n + 1;
      TailPieces(pat);
    }
  }

  lemma {:induction false} OptionalLength(p: Symbol, rest: seq<Symbol>, text: string, i: nat) returns (n: int)
    requires Atom(p) && WellFormed(rest) && i <= |text|
    requires Matches(Repeat(p, QuestionMark, rest), text, i)
    ensures var pat := Repeat(p, QuestionMark, rest);
      RightLength(pat, text, i, n) && Change(pat, text, i, 0) == n + Excess(pat, text, i)
    decreases |rest|, 1
  {
    var pat := Repeat(p, QuestionMark, rest);
    MatchesQuestion(p, rest, text, i);
    var at := if Matches(rest, text, i) then i else i + 1;
    n := LengthAndExcess(rest, text, at);
    n := n + at - i;
    PiecesSound(pat);
    TailPieces(pat);
    OptionalPrefers(Pieces(pat), Pinned(pat), text, i, i + n);
  }

  /** What a repeat counts, with the last match `m` of the rest. */
  lemma RepeatCounts(p: Symbol, q: Symbol, rest: seq<Symbol>, text: string, i: nat) returns (m: nat)
    requires Atom(p) && (q == Star || q == Plus) && WellFormed(rest) && i <= |text|
    requires Matches(Repeat(p, q, rest), text, i)
    ensures var pat, low, end := Repeat(p, q, rest), if q == Star then i else i + 1, StretchEnd(p, text, i);
      && low <= m <= end && Matches(rest, text, m) && !MatchesWithin(rest, text, m + 1, end)
      && Change(pat, text, i, 0) - Excess(pat, text, i) == m - i + Change(rest, text, m, 0) - Excess(rest, text, m)
  {
    StarOrPlus(p, q, rest, text, i);
    var low, end := if q == Star then i else i + 1, StretchEnd(p, text, i);
    m := LastMatch(rest, text, low, end);
    BackOffSucceeds(rest, text, low, end, end - i);
    if q == Star { StarChange(p, rest, text, i); } else { PlusChange(p, rest, text, i); }
  }

  lemma {:induction false} RepeatLength(p: Symbol, q: Symbol, rest: seq<Symbol>, text: string, i: nat) returns (n: int)
    requires Atom(p) && (q == Star || q == Plus) && WellFormed(rest) && i <= |text|
    requires Matches(Repeat(p, q, rest), text, i)
    ensures var pat := Repeat(p, q, rest);
      RightLength(pat, text, i, n) && Change(pat, text, i, 0) == n + Excess(pat, text, i)
    decreases |rest|, 1
  {
    var m := RepeatCounts(p, q, rest, text, i);
    n := LengthAndExcess(rest, text, m);
    n := n + m - i;
    RepeatPrefers(p, q, rest, text, i, m, i + n);
  }

  lemma RepeatPrefers(p: Symbol, q: Symbol, rest: seq<Symbol>, text: string, i: nat, m: nat, j: int)
    requires Atom(p) && (q == Star || q == Plus) && WellFormed(rest) && i <= |text| && m <= StretchEnd(p, text, i)
    requires (if q == Star then i else i + 1) <= m && Matches(rest, text, m)
    requires !MatchesWithin(rest, text, m + 1, StretchEnd(p, text, i)) && RightLength(rest, text, m, j - m)
    ensures RightLength(Repeat(p, q, rest), text, i, j - i)
  {
    var pat := Repeat(p, q, rest);
    PiecesSound(pat);
    TailPieces(pat);
    var piece := Piece(p, TimesOf(q));
    assert Pieces(pat)[0] == piece;
    forall n: nat | n > m && Fits(piece, text, i, n) ensures !Matches(rest, text, n) {
      StretchWithin(p, text, i, n);
    }
    assert Longest(Pieces(pat), Pinned(pat), text, i, m);
  }

  /** A successful call counts the match right exactly when its failing calls leave nothing. */
  lemma LengthRightIff(pat: seq<Symbol>, text: string, i: nat)
    requires WellFormed(pat) && i <= |text| && Matches(pat, text, i)
    ensures RightLength(pat, text, i, Change(pat, text, i, 0)) <==> Excess(pat, text, i) == 0
  {
    var n := LengthAndExcess(pat, text, i);
    PiecesSound(pat);
    PrefersDenotes(Pieces(pat), Pinned(pat), text, i, i + n);
  }

  /** An unanchored search counts it right exactly when the failing calls before leave nothing either. */
  lemma SearchLengthIff(pat: seq<Symbol>, text: string, index: nat)
    requires WellFormed(pat) && index <= |text| && Matches(pat, text, index)
    ensures RightLength(pat, text, index, TotalChange(pat, text, index + 1)) <==>
            TotalChange(pat, text, index) + Excess(pat, text, index) == 0
  {
    var n := LengthAndExcess(pat, text, index);
    PiecesSound(pat);
    PrefersDenotes(Pieces(pat), Pinned(pat), text, index, index + n);
  }

  lemma {:induction false} NothingFailed(rest: seq<Symbol>, text: string, low: nat, k: int)
    requires WellFormed(rest) && Restoring(rest) && k <= |text|
    ensures FailedSum(rest, text, low, k) == 0
    decreases k - low + 1
  {
    if k < low || Matches(rest, text, k) {
    } else {
      FailureRestores(rest, text, k);
      NothingFailed(rest, text, low, k - 1);
    }
  }

  lemma {:induction false} ExactHasNoExcess(pat: seq<Symbol>, text: string, i: nat)
    requires WellFormed(pat) && Exact(pat) && i <= |text| && Matches(pat, text, i)
    ensures Excess(pat, text, i) == 0
    decreases |pat|
  {
    if pat == [] || pat == [End] {
    } else if Quantified(pat) {
      var p, q, rest := pat[0], pat[1], pat[2..];
      assert pat == Repeat(p, q, rest);
      if q == QuestionMark {
        MatchesQuestion(p, rest, text, i);
        if Matches(rest, text, i) {
          ExactHasNoExcess(rest, text, i);
        } else {
          FailureRestores(rest, text, i);
          ExactHasNoExcess(rest, text, i + 1);
        }
      } else {
        StarOrPlus(p, q, rest, text, i);
        var low, end := if q == Star then i else i + 1, StretchEnd(p, text, i);
        NothingFailed(rest, text, low, end);
        ExactHasNoExcess(rest, text, LastMatch(rest, text, low, end));
      }
    } else {
      MatchesLiteral(pat, text, i);
      ExactHasNoExcess(pat[1..], text, i + 1);
    }
  }

  /**
    In particular when every quantifier is followed by a pattern whose failing calls leave the count
    alone, which can be seen from the pattern.
  */
  lemma LengthExact(pat: seq<Symbol>, text: string, i: nat)
    requires WellFormed(pat) && Exact(pat) && i <= |text| && Matches(pat, text, i)
    ensures RightLength(pat, text, i, Change(pat, text, i, 0))
  {
    ExactHasNoExcess(pat, text, i);
    LengthRightIff(pat, text, i);
  }

  lemma OptionalPrefers(ps: seq<Piece>, pinned: bool, text: string, i: nat, j: int)
    requires Sound(ps) && ps != [] && ps[0].times == Optional && i <= |text|
    requires if Accepts(ps[1..], pinned, text, i) then Prefers(ps[1..], pinned, text, i, j)
             else i < |text| && MatchesOne(ps[0].p, text[i]) && Prefers(ps[1..], pinned, text, i + 1, j)
    ensures Prefers(ps, pinned, text, i, j)
  { }

  function Repeats(pat: seq<Symbol>): nat {
    if pat == [] then 0 else (if pat[0].Star? || pat[0].Plus? then 1 else 0) + Repeats(pat[1..])
  }

  /** Patterns with at most one `*` or `+` and neither `?` nor `$` qualify. */
  lemma {:induction false} OneRepeatIsExact(pat: seq<Symbol>)
    requires WellFormed(pat) && Repeats(pat) <= 1 && QuestionMark !in pat && End !in pat
    ensures Exact(pat) && (Repeats(pat) == 0 ==> Plain(pat))
    decreases |pat|
  {
    if pat == [] {
    } else {
      assert pat[0] != End;
      if Quantified(pat) {
        assert pat[1] in pat && pat[1..][1..] == pat[2..];
        assert Repeats(pat) == Repeats(pat[1..]) == 1 + Repeats(pat[2..]);
        OneRepeatIsExact(pat[2..]);
      } else {
        OneRepeatIsExact(pat[1..]);
        assert pat == [pat[0]] + pat[1..];
      }
    }
  }

  /**
    A search whose failing calls leave the count alone ends with the count of its last call; with
    an exact pattern that is the length of the match it found.
  */
  lemma {:induction false} SearchLength(pat: seq<Symbol>, text: string, index: nat)
    requires WellFormed(pat) && Restoring(pat) && index <= |text| && !MatchesBelow(pat, text, index)
    ensures TotalChange(pat, text, index + 1) == Change(pat, text, index, 0)
    ensures Exact(pat) && Matches(pat, text, index) ==> RightLength(pat, text, index, TotalChange(pat, text, index + 1))
    decreases index
  {
    if index == 0 {
    } else {
      assert !Matches(pat, text, index - 1);
      FailureRestores(pat, text, index - 1);
      SearchLength(pat, text, index - 1);
    }
    if Exact(pat) && Matches(pat, text, index) { LengthExact(pat, text, index); }
  }

  /** `^.?b$` matches all of "bb", two characters, but `*matchlength` ends up as 3. */
  lemma WrongLengthExample()
    ensures var pat := [Dot, QuestionMark, Char('b'), End];
      && WellFormed(pat) && Matches(pat, "bb", 0) && Change(pat, "bb", 0, 0) == 3
      && (forall n :: RightLength(pat, "bb", 0, n) ==> n == 2)
  {
    var rest, pat := [Char('b'), End], [Dot, QuestionMark, Char('b'), End];
    assert rest[1..] == [End] && pat[2..] == rest;
    MatchesLiteral(rest, "bb", 0);
    MatchesLiteral(rest, "bb", 1);
    MatchesEnd([End], "bb", 1);
    MatchesEnd([End], "bb", 2);
    assert WellFormed(rest) && WellFormed(pat);
    assert pat == Repeat(Dot, QuestionMark, rest);
    MatchesQuestion(Dot, rest, "bb", 0);
    assert Change(rest, "bb", 0, 0) == Change([End], "bb", 1, 1) == 1;
    assert Change(rest, "bb", 1, 0) == Change([End], "bb", 2, 1) == 1;
    PiecesSound(pat);
    assert Pinned(pat);
    forall n | RightLength(pat, "bb", 0, n) ensures n == 2 {
      PrefersDenotes(Pieces(pat), true, "bb", 0, n);
      PinnedEnds(Pieces(pat), "bb", 0, n);
    }
  }

  lemma {:induction false} PinnedEnds(ps: seq<Piece>, text: string, i: nat, j: nat)
    requires Sound(ps) && Denotes(ps, true, text, i, j)
    ensures j == |text|
    decreases |ps|
  {
    if ps == [] {
    } else {
      var k: nat :| Fits(ps[0], text, i, k) && Denotes(ps[1..], true, text, k, j);
      PinnedEnds(ps[1..], text, k, j);
    }
  }
}
