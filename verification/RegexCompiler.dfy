/**
  The pattern compiler of src-rp/lib/regex/re.c: from pattern text to the symbols the matcher uses.
*/
module RegexCompiler {
  import opened Regex

  const MAX_REGEXP_OBJECTS: nat := 30
  const MAX_CHAR_CLASS_LEN: nat := 40

  /**
    `Stale` is what a lone backslash at the end of a pattern gives: the compiler then leaves the
    last symbol as an earlier call left it.
  */
  datatype Compiled = Pattern(symbols: seq<Symbol>) | Rejected | Stale

  datatype Scan = Scanned(text: string, rest: string) | Failed

  /**
    Reads a class from the front of `s`, up to the closing bracket or the end, behind `text` that
    is already read and with `used` characters of the class buffer taken.
  */
  function ScanClass(s: string, text: string, used: nat): Scan
    decreases |s|
  {
    if s == "" || s[0] == ']' then
      if used >= MAX_CHAR_CLASS_LEN then Failed else Scanned(text, s)
    else if s[0] == '\\' then
      if used >= MAX_CHAR_CLASS_LEN - 1 || |s| == 1 then Failed
      else ScanClass(s[2..], text + [s[0], s[1]], used + 2)
    else if used >= MAX_CHAR_CLASS_LEN then Failed
    else ScanClass(s[1..], text + [s[0]], used + 1)
  }

  lemma {:induction false} ScanShrinks(s: string, text: string, used: nat)
    ensures ScanClass(s, text, used).Scanned? ==> |ScanClass(s, text, used).rest| <= |s|
    decreases |s|
  {
    if s == "" || s[0] == ']' {
    } else if s[0] == '\\' {
      if |s| > 1 { ScanShrinks(s[2..], text + [s[0], s[1]], used + 2); }
    } else {
      ScanShrinks(s[1..], text + [s[0]], used + 1);
    }
  }

  /** What an escaped character stands for. */
  function Escaped(c: char): Symbol {
    match c
    case 'd' => Digit
    case 'D' => NotDigit
    case 'w' => Alpha
    case 'W' => NotAlpha
    case 's' => Whitespace
    case 'S' => NotWhitespace
    case _ => Char(c)
  }

  /** What a character stands for that is neither a backslash nor an opening bracket. */
  function Single(c: char): Symbol {
    match c
    case '^' => Begin
    case '$' => End
    case '.' => Dot
    case '*' => Star
    case '+' => Plus
    case '?' => QuestionMark
    case _ => Char(c)
  }

  /** Compiles the pattern text `s` behind `symbols`, with `used` class characters taken. */
  function CompileFrom(s: string, symbols: seq<Symbol>, used: nat): Compiled
    decreases |s|
  {
    if s == "" || |symbols| + 1 >= MAX_REGEXP_OBJECTS then Pattern(symbols)
    else if s[0] == '\\' then
      if |s| == 1 then Stale else CompileFrom(s[2..], symbols + [Escaped(s[1])], used)
    else if s[0] == '[' then
      if |s| > 1 && s[1] == '^' then
        if |s| == 2 then Rejected else CompileClass(s[2..], true, symbols, used)
      else CompileClass(s[1..], false, symbols, used)
    else CompileFrom(s[1..], symbols + [Single(s[0])], used)
  }

  /** The same when `s` starts inside the brackets of a class. */
  function CompileClass(s: string, negated: bool, symbols: seq<Symbol>, used: nat): Compiled
    decreases |s|, 1
  {
    ScanShrinks(s, "", used);
    match ScanClass(s, "", used)
    case Failed => Rejected
    case Scanned(text, rest) =>
      if rest == "" then Rejected
      else CompileFrom(rest[1..], symbols + [ClassSymbol(negated, text)], used + |text| + 1)
  }

  function ClassSymbol(negated: bool, text: string): Symbol {
    if negated then InvCharClass(text) else CharClass(text)
  }

  /** The loop of `re_compile` that copies a class into the class buffer; `next` is where it stops. */
  method CopyClass(pattern: string, start: nat, used: nat) returns (r: Scan, next: nat)
    requires start <= |pattern|
    ensures r == ScanClass(pattern[start..], "", used)
    ensures r.Scanned? ==> next <= |pattern| && r.rest == pattern[next..]
  {
    var i: nat, idx: nat, text := start, used, "";
    while i < |pattern| && pattern[i] != ']'
      invariant start <= i <= |pattern|
      invariant ScanClass(pattern[start..], "", used) == ScanClass(pattern[i..], text, idx)
      decreases |pattern| - i
    {
      ghost var s := pattern[i..];
      assert s[1..] == pattern[i + 1..];
      if pattern[i] == '\\' {
        if idx >= MAX_CHAR_CLASS_LEN - 1 { return Failed, i; }
        if i + 1 >= |pattern| { return Failed, i; }
        assert s[2..] == pattern[i + 2..];
        assert text + [s[0], s[1]] == text + [pattern[i]] + [pattern[i + 1]];
        text := text + [pattern[i]];
        idx, i := idx + 1, i + 1;
      } else {
        if idx >= MAX_CHAR_CLASS_LEN { return Failed, i; }
      }
      text := text + [pattern[i]];
      idx, i := idx + 1, i + 1;
    }
    if idx >= MAX_CHAR_CLASS_LEN { return Failed, i; }
    return Scanned(text, pattern[i..]), i;
  }

  /** What an opening bracket leads to. */
  lemma BracketOpens(s: string, symbols: seq<Symbol>, used: nat)
    requires s != "" && s[0] == '[' && |symbols| + 1 < MAX_REGEXP_OBJECTS
    ensures |s| > 1 && s[1] == '^' ==>
      CompileFrom(s, symbols, used) == if |s| == 2 then Rejected else CompileClass(s[2..], true, symbols, used)
    ensures !(|s| > 1 && s[1] == '^') ==> CompileFrom(s, symbols, used) == CompileClass(s[1..], false, symbols, used)
  { }

  /** The rest of a class, read from `start` on; false when the pattern is rejected. */
  method ReadBrackets(pattern: string, start: nat, negated: bool, used: nat, ghost symbols: seq<Symbol>)
    returns (ok: bool, p: Symbol, next: nat, used': nat)
    requires start <= |pattern|
    ensures !ok ==> CompileClass(pattern[start..], negated, symbols, used) == Rejected
    ensures ok ==> start <= next < |pattern|
    ensures ok ==> CompileClass(pattern[start..], negated, symbols, used) == CompileFrom(pattern[next + 1..], symbols + [p], used')
  {
    var scan, stop := CopyClass(pattern, start, used);
    ScanShrinks(pattern[start..], "", used);
    if scan.Failed? || stop >= |pattern| { return false, Dot, start, used; }
    assert pattern[stop..][1..] == pattern[stop + 1..];
    return true, ClassSymbol(negated, scan.text), stop, used + |scan.text| + 1;
  }

  /** The part of `re_compile` for a class whose bracket is at `start`; false when the pattern is rejected. */
  method ReadClass(pattern: string, start: nat, used: nat, ghost symbols: seq<Symbol>)
    returns (ok: bool, p: Symbol, next: nat, used': nat)
    requires start < |pattern| && pattern[start] == '[' && |symbols| + 1 < MAX_REGEXP_OBJECTS
    ensures !ok ==> CompileFrom(pattern[start..], symbols, used) == Rejected
    ensures ok ==> start < next < |pattern|
    ensures ok ==> CompileFrom(pattern[start..], symbols, used) == CompileFrom(pattern[next + 1..], symbols + [p], used')
  {
    ghost var s := pattern[start..];
    BracketOpens(s, symbols, used);
    if start + 1 < |pattern| && pattern[start + 1] == '^' {
      if start + 2 >= |pattern| { return false, Dot, start, used; }
      assert s[2..] == pattern[start + 2..];
      ok, p, next, used' := ReadBrackets(pattern, start + 2, true, used, symbols);
    } else {
      assert s[1..] == pattern[start + 1..];
      ok, p, next, used' := ReadBrackets(pattern, start + 1, false, used, symbols);
    }
  }

  /** One round of the loop in `re_compile`; `status` is what the compiler returns if it stops here. */
  method ReadSymbol(pattern: string, start: nat, used: nat, ghost symbols: seq<Symbol>)
    returns (status: Compiled, p: Symbol, next: nat, used': nat)
    requires start < |pattern| && |symbols| + 1 < MAX_REGEXP_OBJECTS
    ensures !status.Pattern? ==> CompileFrom(pattern[start..], symbols, used) == status
    ensures status.Pattern? ==> start <= next < |pattern|
    ensures status.Pattern? ==> CompileFrom(pattern[start..], symbols, used) == CompileFrom(pattern[next + 1..], symbols + [p], used')
  {
    ghost var s := pattern[start..];
    status, p, next, used' := Pattern([]), Dot, start, used;
    assert s[1..] == pattern[start + 1..];
    if pattern[start] == '\\' {
      if start + 1 >= |pattern| { return Stale, p, next, used; }
      assert s[2..] == pattern[start + 2..];
      next := start + 1;
      p := Escaped(pattern[next]);
    } else if pattern[start] == '[' {
      var ok;
      ok, p, next, used' := ReadClass(pattern, start, used, symbols);
      if !ok { status := Rejected; }
    } else {
      p := Single(pattern[start]);
    }
  }

  /** `re_compile` */
  method Compile(pattern: string) returns (r: Compiled)
    ensures r == CompileFrom(pattern, [], 1)
  {
    var i: nat, used: nat := 0, 1;
    var symbols: seq<Symbol> := [];
    ghost var goal := CompileFrom(pattern, [], 1);
    assert pattern[0..] == pattern;
    while i < |pattern| && |symbols| + 1 < MAX_REGEXP_OBJECTS
      invariant i <= |pattern|
      invariant goal == CompileFrom(pattern[i..], symbols, used)
      decreases |pattern| - i
    {
      var status, p, next, used' := ReadSymbol(pattern, i, used, symbols);
      if !status.Pattern? { return status; }
      i, used, symbols := next + 1, used', symbols + [p];
    }
    return Pattern(symbols);
  }

  // ---------------------------------------------------------------- writing a pattern down

  predicate Special(c: char) {
    c == '^' || c == '$' || c == '.' || c == '*' || c == '+' || c == '?' || c == '\\' || c == '['
  }

  /** Text that can stand in brackets: it has no bare closing bracket and no lone backslash. */
  predicate ClassText(s: string) {
    if s == "" then true
    else if s[0] == '\\' then |s| > 1 && ClassText(s[2..])
    else s[0] != ']' && ClassText(s[1..])
  }

  predicate Writable(p: Symbol) {
    match p
    case CharClass(ccl) => ClassText(ccl) && (ccl == "" || ccl[0] != '^')
    case InvCharClass(ccl) => ClassText(ccl)
    case _ => true
  }

  /** The text for a symbol. */
  function Written(p: Symbol): (s: string)
    ensures |s| >= 1
  {
    match p
    case Begin => "^"
    case End => "$"
    case Dot => "."
    case Star => "*"
    case Plus => "+"
    case QuestionMark => "?"
    case Char(c) => if Special(c) then ['\\', c] else [c]
    case CharClass(ccl) => "[" + ccl + "]"
    case InvCharClass(ccl) => "[^" + ccl + "]"
    case Digit => "\\d"
    case NotDigit => "\\D"
    case Alpha => "\\w"
    case NotAlpha => "\\W"
    case Whitespace => "\\s"
    case NotWhitespace => "\\S"
  }

  function WrittenAll(ps: seq<Symbol>): string {
    if ps == [] then "" else Written(ps[0]) + WrittenAll(ps[1..])
  }

  /** The class characters of a pattern, each class with its terminating zero. */
  function ClassSpace(ps: seq<Symbol>): nat {
    if ps == [] then 0
    else Space(ps[0]) + ClassSpace(ps[1..])
  }

  lemma {:induction false} ClassScans(ccl: string, tail: string, text: string, used: nat)
    requires ClassText(ccl) && used + |ccl| < MAX_CHAR_CLASS_LEN && tail != "" && tail[0] == ']'
    ensures ScanClass(ccl + tail, text, used) == Scanned(text + ccl, tail)
    decreases |ccl|
  {
    var s := ccl + tail;
    if ccl == "" {
      assert s == tail && text + ccl == text;
    } else if ccl[0] == '\\' {
      ClassScans(ccl[2..], tail, text + ccl[..2], used + 2);
      assert s[2..] == ccl[2..] + tail && [s[0], s[1]] == ccl[..2];
      assert text + ccl[..2] + ccl[2..] == text + ccl;
    } else {
      ClassScans(ccl[1..], tail, text + ccl[..1], used + 1);
      assert s[1..] == ccl[1..] + tail && [s[0]] == ccl[..1];
      assert text + ccl[..1] + ccl[1..] == text + ccl;
    }
  }

  function Space(p: Symbol): nat { if p.CharClass? || p.InvCharClass? then |p.ccl| + 1 else 0 }

  lemma ClassReads(negated: bool, ccl: string, rest: string, symbols: seq<Symbol>, used: nat)
    requires ClassText(ccl) && used + |ccl| < MAX_CHAR_CLASS_LEN
    ensures CompileClass(Closed(ccl, rest), negated, symbols, used)
         == CompileFrom(rest, symbols + [ClassSymbol(negated, ccl)], used + |ccl| + 1)
  {
    var tail := "]" + rest;
    ClassScans(ccl, tail, "", used);
    assert tail[1..] == rest && "" + ccl == ccl;
  }

  /** The text of a class with its closing bracket and what follows. */
  function Closed(ccl: string, rest: string): string { ccl + ("]" + rest) }

  lemma ClassOpens(p: Symbol, rest: string)
    requires p.CharClass? && Writable(p)
    ensures var s := Written(p) + rest;
      |s| > 1 && s[0] == '[' && s[1] != '^' && s[1..] == Closed(p.ccl, rest)
  {
    assert Written(p) + rest == ['['] + Closed(p.ccl, rest);
  }

  lemma InvClassOpens(p: Symbol, rest: string)
    requires p.InvCharClass?
    ensures var s := Written(p) + rest;
      |s| > 2 && s[0] == '[' && s[1] == '^' && s[2..] == Closed(p.ccl, rest)
  {
    assert Written(p) + rest == ['[', '^'] + Closed(p.ccl, rest);
  }

  /** What is behind the opening of a class decides. */
  lemma BracketLeads(s: string, negated: bool, more: string, symbols: seq<Symbol>, used: nat, r: Compiled)
    requires |s| > 2 || (|s| == 2 && !negated)
    requires s[0] == '[' && (negated <==> s[1] == '^') && more == s[if negated then 2 else 1..]
    requires |symbols| + 1 < MAX_REGEXP_OBJECTS && CompileClass(more, negated, symbols, used) == r
    ensures CompileFrom(s, symbols, used) == r
  {
    BracketOpens(s, symbols, used);
  }

  lemma ClassCompiles(p: Symbol, rest: string, symbols: seq<Symbol>, used: nat)
    requires p.CharClass? && Writable(p) && |symbols| + 1 < MAX_REGEXP_OBJECTS && used + |p.ccl| < MAX_CHAR_CLASS_LEN
    ensures CompileFrom(Written(p) + rest, symbols, used) == CompileFrom(rest, symbols + [p], used + |p.ccl| + 1)
  {
    ClassOpens(p, rest);
    ClassReads(false, p.ccl, rest, symbols, used);
    BracketLeads(Written(p) + rest, false, Closed(p.ccl, rest), symbols, used,
                 CompileFrom(rest, symbols + [p], used + |p.ccl| + 1));
  }

  lemma InvClassCompiles(p: Symbol, rest: string, symbols: seq<Symbol>, used: nat)
    requires p.InvCharClass? && Writable(p) && |symbols| + 1 < MAX_REGEXP_OBJECTS && used + |p.ccl| < MAX_CHAR_CLASS_LEN
    ensures CompileFrom(Written(p) + rest, symbols, used) == CompileFrom(rest, symbols + [p], used + |p.ccl| + 1)
  {
    InvClassOpens(p, rest);
    ClassReads(true, p.ccl, rest, symbols, used);
    BracketLeads(Written(p) + rest, true, Closed(p.ccl, rest), symbols, used,
                 CompileFrom(rest, symbols + [p], used + |p.ccl| + 1));
  }

  lemma PlainCompiles(p: Symbol, rest: string, symbols: seq<Symbol>, used: nat)
    requires !p.CharClass? && !p.InvCharClass? && |symbols| + 1 < MAX_REGEXP_OBJECTS
    ensures CompileFrom(Written(p) + rest, symbols, used) == CompileFrom(rest, symbols + [p], used)
  {
    var w := Written(p);
    var s := w + rest;
    assert s[|w|..] == rest;
    if |w| == 2 {
      assert w[0] == '\\' && Escaped(w[1]) == p;
    } else {
      assert |w| == 1 && Single(w[0]) == p && w[0] != '\\' && w[0] != '[';
    }
  }

  /** Reading a symbol's text yields the symbol and goes on behind it. */
  lemma SymbolCompiles(p: Symbol, rest: string, symbols: seq<Symbol>, used: nat)
    requires Writable(p) && |symbols| + 1 < MAX_REGEXP_OBJECTS && used + Space(p) <= MAX_CHAR_CLASS_LEN
    ensures CompileFrom(Written(p) + rest, symbols, used) == CompileFrom(rest, symbols + [p], used + Space(p))
  {
    match p
    case CharClass(_) => ClassCompiles(p, rest, symbols, used);
    case InvCharClass(_) => InvClassCompiles(p, rest, symbols, used);
    case _ => PlainCompiles(p, rest, symbols, used);
  }

  lemma MoveOver(symbols: seq<Symbol>, ps: seq<Symbol>)
    requires ps != []
    ensures symbols + [ps[0]] + ps[1..] == symbols + ps
  { }

  lemma FirstRead(p: Symbol, more: string, tail: string, symbols: seq<Symbol>, used: nat)
      returns (rest: string)
    requires Writable(p) && |symbols| + 1 < MAX_REGEXP_OBJECTS && used + Space(p) <= MAX_CHAR_CLASS_LEN
    ensures rest == more + tail
    ensures CompileFrom(Written(p) + more + tail, symbols, used) == CompileFrom(rest, symbols + [p], used + Space(p))
  {
    rest := more + tail;
    Associative(Written(p), more, tail);
    SymbolCompiles(p, rest, symbols, used);
  }

  lemma TextOfFirst(ps: seq<Symbol>)
    requires ps != []
    ensures WrittenAll(ps) == Written(ps[0]) + WrittenAll(ps[1..])
    ensures ClassSpace(ps) == Space(ps[0]) + ClassSpace(ps[1..])
  { }

  /** The text of symbols that fit the compiler's two arrays is read as those symbols, whatever is behind it. */
  lemma {:induction false} CompileBehind(s: string, ps: seq<Symbol>, tail: string, symbols: seq<Symbol>, used: nat)
    requires s == WrittenAll(ps) + tail && forall k :: 0 <= k < |ps| ==> Writable(ps[k])
    requires |symbols| + |ps| < MAX_REGEXP_OBJECTS && used + ClassSpace(ps) <= MAX_CHAR_CLASS_LEN
    ensures CompileFrom(s, symbols, used) == CompileFrom(tail, symbols + ps, used + ClassSpace(ps))
    decreases |ps|
  {
    if ps == [] {
      assert symbols + ps == symbols && s == tail;
    } else {
      TextOfFirst(ps);
      MoveOver(symbols, ps);
      var rest := FirstRead(ps[0], WrittenAll(ps[1..]), tail, symbols, used);
      CompileBehind(rest, ps[1..], tail, symbols + [ps[0]], used + Space(ps[0]));
    }
  }

  lemma Associative(a: string, b: string, c: string)
    ensures (a + b) + c == a + (b + c)
  { }

  /** So what the rest leads to is what the whole leads to. */
  lemma RestDecides(s: string, ps: seq<Symbol>, tail: string, symbols: seq<Symbol>, used: nat, r: Compiled)
    requires s == WrittenAll(ps) + tail && forall k :: 0 <= k < |ps| ==> Writable(ps[k])
    requires |symbols| + |ps| < MAX_REGEXP_OBJECTS && used + ClassSpace(ps) <= MAX_CHAR_CLASS_LEN
    requires CompileFrom(tail, symbols + ps, used + ClassSpace(ps)) == r
    ensures CompileFrom(s, symbols, used) == r
  {
    CompileBehind(s, ps, tail, symbols, used);
  }

  lemma NothingLeft(tail: string, symbols: seq<Symbol>, used: nat)
    requires tail == "" || |symbols| + 1 >= MAX_REGEXP_OBJECTS
    ensures CompileFrom(tail, symbols, used) == Pattern(symbols)
  { }

  lemma BackslashLeft(tail: string, symbols: seq<Symbol>, used: nat)
    requires |tail| == 1 && tail[0] == '\\' && |symbols| + 1 < MAX_REGEXP_OBJECTS
    ensures CompileFrom(tail, symbols, used) == Stale
  { }

  /** Every symbol sequence that fits the compiler's two arrays is compiled from its text unchanged. */
  lemma CompileWritten(s: string, ps: seq<Symbol>, symbols: seq<Symbol>, used: nat)
    requires s == WrittenAll(ps) && forall k :: 0 <= k < |ps| ==> Writable(ps[k])
    requires |symbols| + |ps| < MAX_REGEXP_OBJECTS && used + ClassSpace(ps) <= MAX_CHAR_CLASS_LEN
    ensures CompileFrom(s, symbols, used) == Pattern(symbols + ps)
  {
    var tail := s[|s|..];
    assert s == s + tail;
    NothingLeft(tail, symbols + ps, used + ClassSpace(ps));
    RestDecides(s, ps, tail, symbols, used, Pattern(symbols + ps));
  }

  /** Behind the 29th symbol the text is ignored, whatever it is. */
  lemma LongPatternIsCut(s: string, ps: seq<Symbol>, tail: string, symbols: seq<Symbol>, used: nat)
    requires s == WrittenAll(ps) + tail && forall k :: 0 <= k < |ps| ==> Writable(ps[k])
    requires |symbols| + |ps| == 29 && used + ClassSpace(ps) <= MAX_CHAR_CLASS_LEN
    ensures CompileFrom(s, symbols, used) == Pattern(symbols + ps)
  {
    NothingLeft(tail, symbols + ps, used + ClassSpace(ps));
    RestDecides(s, ps, tail, symbols, used, Pattern(symbols + ps));
  }

  /** Text that breaks off in a class is rejected. */
  lemma OpenClassRejected(s: string, ps: seq<Symbol>, tail: string, symbols: seq<Symbol>, used: nat)
    requires s == WrittenAll(ps) + tail && forall k :: 0 <= k < |ps| ==> Writable(ps[k])
    requires tail != "" && tail[0] == '[' && ClassText(tail[1..])
    requires |symbols| + |ps| < 29 && used + ClassSpace(ps) <= MAX_CHAR_CLASS_LEN
    ensures CompileFrom(s, symbols, used) == Rejected
  {
    OpenClass(tail, tail[1..], symbols + ps, used + ClassSpace(ps));
    RestDecides(s, ps, tail, symbols, used, Rejected);
  }

  /** Text that breaks off behind a backslash leaves a symbol of an earlier call. */
  lemma LoneBackslashIsStale(s: string, ps: seq<Symbol>, tail: string, symbols: seq<Symbol>, used: nat)
    requires s == WrittenAll(ps) + tail && forall k :: 0 <= k < |ps| ==> Writable(ps[k])
    requires |tail| == 1 && tail[0] == '\\'
    requires |symbols| + |ps| < 29 && used + ClassSpace(ps) <= MAX_CHAR_CLASS_LEN
    ensures CompileFrom(s, symbols, used) == Stale
  {
    BackslashLeft(tail, symbols + ps, used + ClassSpace(ps));
    RestDecides(s, ps, tail, symbols, used, Stale);
  }

  lemma OpenClass(s: string, ccl: string, symbols: seq<Symbol>, used: nat)
    requires ClassText(ccl) && |symbols| + 1 < MAX_REGEXP_OBJECTS && s != "" && s[0] == '[' && ccl == s[1..]
    ensures CompileFrom(s, symbols, used) == Rejected
  {
    BracketOpens(s, symbols, used);
    if |ccl| > 0 && ccl[0] == '^' {
      assert s[2..] == ccl[1..];
      NoClosing(ccl[1..], s[..0], used);
    } else {
      assert s[1..] == ccl;
      NoClosing(ccl, s[..0], used);
    }
  }

  lemma {:induction false} NoClosing(ccl: string, text: string, used: nat)
    requires ClassText(ccl)
    ensures var r := ScanClass(ccl, text, used); r.Failed? || r.rest == ""
    decreases |ccl|
  {
    if ccl == "" {
    } else if ccl[0] == '\\' {
      NoClosing(ccl[2..], text + [ccl[0], ccl[1]], used + 2);
    } else {
      NoClosing(ccl[1..], text + [ccl[0]], used + 1);
    }
  }

  lemma {:induction false} ScanFits(s: string, text: string, used: nat)
    requires used <= MAX_CHAR_CLASS_LEN
    ensures match ScanClass(s, text, used)
            case Failed => true
            case Scanned(t, _) => |t| >= |text| && used + |t| - |text| < MAX_CHAR_CLASS_LEN
    decreases |s|
  {
    if s == "" || s[0] == ']' {
    } else if s[0] == '\\' {
      if |s| > 1 && used + 2 <= MAX_CHAR_CLASS_LEN { ScanFits(s[2..], text + [s[0], s[1]], used + 2); }
    } else if used < MAX_CHAR_CLASS_LEN {
      ScanFits(s[1..], text + [s[0]], used + 1);
    }
  }

  lemma {:induction false} ClassSpaceGrows(ps: seq<Symbol>, p: Symbol)
    ensures ClassSpace(ps + [p]) == ClassSpace(ps) + Space(p)
    decreases |ps|
  {
    if ps == [] {
      assert [] + [p] == [p];
    } else {
      ClassSpaceGrows(ps[1..], p);
      assert (ps + [p])[1..] == ps[1..] + [p];
    }
  }

  predicate FitsArrays(ps: seq<Symbol>) { |ps| < MAX_REGEXP_OBJECTS && ClassSpace(ps) < MAX_CHAR_CLASS_LEN }

  /** What the compiler produces fits its arrays, whatever the pattern text. */
  lemma {:induction false} CompiledFits(s: string, symbols: seq<Symbol>, used: nat)
    requires FitsArrays(symbols) && used == 1 + ClassSpace(symbols)
    ensures CompileFrom(s, symbols, used).Pattern? ==> FitsArrays(CompileFrom(s, symbols, used).symbols)
    decreases |s|, 0
  {
    if s == "" || |symbols| + 1 >= MAX_REGEXP_OBJECTS {
    } else if s[0] == '\\' {
      if |s| > 1 {
        ClassSpaceGrows(symbols, Escaped(s[1]));
        CompiledFits(s[2..], symbols + [Escaped(s[1])], used);
      }
    } else if s[0] == '[' {
      if |s| > 1 && s[1] == '^' {
        if |s| > 2 { CompiledClassFits(s[2..], true, symbols, used); }
      } else {
        CompiledClassFits(s[1..], false, symbols, used);
      }
    } else {
      ClassSpaceGrows(symbols, Single(s[0]));
      CompiledFits(s[1..], symbols + [Single(s[0])], used);
    }
  }

  lemma {:induction false} CompiledClassFits(s: string, negated: bool, symbols: seq<Symbol>, used: nat)
    requires FitsArrays(symbols) && |symbols| + 1 < MAX_REGEXP_OBJECTS && used == 1 + ClassSpace(symbols)
    ensures CompileClass(s, negated, symbols, used).Pattern? ==> FitsArrays(CompileClass(s, negated, symbols, used).symbols)
    decreases |s|, 1
  {
    ScanShrinks(s, "", used);
    ScanFits(s, "", used);
    match ScanClass(s, "", used)
    case Failed =>
    case Scanned(text, rest) =>
      if rest != "" {
        var p := ClassSymbol(negated, text);
        ClassSpaceGrows(symbols, p);
        CompiledFits(rest[1..], symbols + [p], used + |text| + 1);
      }
  }

  /**
    Writing a pattern down and compiling the text gives the pattern back exactly when it has fewer
    than 30 symbols and its classes, with a zero behind each, take fewer than 40 characters.
  */
  lemma RoundTripIff(ps: seq<Symbol>)
    requires forall k :: 0 <= k < |ps| ==> Writable(ps[k])
    ensures CompileFrom(WrittenAll(ps), [], 1) == Pattern(ps) <==> FitsArrays(ps)
  {
    CompiledFits(WrittenAll(ps), [], 1);
    if FitsArrays(ps) {
      CompileWritten(WrittenAll(ps), ps, [], 1);
      assert [] + ps == ps;
    }
  }

  /** The matcher can be given what the compiler made of a text. */
  predicate Usable(c: Compiled) {
    match c
    case Rejected => true
    case Stale => false
    case Pattern(ps) => WellFormed(Unanchored(ps))
  }

  function Unanchored(ps: seq<Symbol>): seq<Symbol> { if Anchored(ps) then ps[1..] else ps }

  predicate Anchored(ps: seq<Symbol>) { ps != [] && ps[0] == Begin }

  /** `re_match`: a rejected text matches nowhere, any other where the pattern it compiles to matches. */
  method ReMatch(pattern: string, text: string, len: Length) returns (index: int)
    requires Usable(CompileFrom(pattern, [], 1))
    modifies len
    ensures var c := CompileFrom(pattern, [], 1);
      if c.Rejected? then index == -1 && len.n == 0
      else if Anchored(c.symbols) then index == if Matches(Unanchored(c.symbols), text, 0) then 0 else -1
      else if index >= 0 then
        index < |text| && Matches(c.symbols, text, index) && !MatchesBelow(c.symbols, text, index)
      else index == -1 && !MatchesBelow(c.symbols, text, |text|)
  {
    var compiled := Compile(pattern);
    if compiled.Rejected? {
      len.n := 0;
      return -1;
    }
    index := ReMatchP(compiled.symbols, text, len);
  }
}
