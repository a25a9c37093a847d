/**
 The accepted address texts, one by one: each is written in one way only, so that those beyond the
 standard can be told exactly (section 2.2 of RFC 4291); and the same for the dotted forms.
 */
module Inet6Language {
  import opened Basics
  import opened Inet6Grammar
  import DottedQuad

  // ----- dotted forms -----

  predicate AllDigits(ds: seq<string>) { forall i | 0 <= i < |ds| :: DottedQuad.Digits(ds[i]) }

  /** Strings of digits are joined by dots in one way only. */
  lemma {:induction false} JoinUnique(ds: seq<string>, es: seq<string>)
    requires ds != [] && es != [] && AllDigits(ds) && AllDigits(es)
    requires DottedQuad.Join(ds) == DottedQuad.Join(es)
    ensures ds == es
    decreases |ds|
  {
    FirstPiece(ds);
    FirstPiece(es);
    if |ds| > 1 && |es| > 1 {
      SplitOnce(ds[0], es[0], '.', DottedQuad.Join(ds[1..]), DottedQuad.Join(es[1..]));
      JoinUnique(ds[1..], es[1..]);
      Uncons(ds);
      Uncons(es);
    } else {
      assert ds == [ds[0]] && es == [es[0]];
    }
  }

  /** The digits before the first dot, if there is one. */
  lemma FirstPiece(ds: seq<string>)
    requires ds != [] && AllDigits(ds)
    ensures '.' !in ds[0] && (|ds| > 1 <==> '.' in DottedQuad.Join(ds))
    ensures |ds| > 1 ==> AllDigits(ds[1..]) && DottedQuad.Join(ds) == ds[0] + ("." + DottedQuad.Join(ds[1..]))
  {
    assert DottedQuad.Digits(ds[0]);
    assert forall i | 0 <= i < |ds[0]| :: DottedQuad.IsDigit(ds[0][i]);
    if |ds| > 1 { assert DottedQuad.Join(ds)[|ds[0]|] == '.'; }
  }

  lemma {:induction false} JoinChars(ds: seq<string>)
    requires AllDigits(ds)
    ensures forall i | 0 <= i < |DottedQuad.Join(ds)| ::
      DottedQuad.Join(ds)[i] == '.' || DottedQuad.IsDigit(DottedQuad.Join(ds)[i])
  {
    if |ds| > 1 { JoinChars(ds[1..]); }
    if ds != [] { assert DottedQuad.Digits(ds[0]); }
  }

  /**
   What inet_aton accepts beyond inet_pton4: fewer than four components, empty ones, and ones that only
   wrap to a byte.
   */
  lemma AtonBeyondQuad(s: string, m: nat, ds: seq<string>, b: seq<byte>)
    requires DottedQuad.AtonDenotes(ds, s, m, b)
    ensures DottedQuad.Quad(s).Some? <==> |ds| == 4 && DottedQuad.AllOctets(ds)
  {
    assert forall i | 0 <= i < |ds| :: DottedQuad.IsComponent(ds[i], m);
    if DottedQuad.Quad(s).Some? {
      DottedQuad.QuadExact(s, DottedQuad.Quad(s).value);
      var es :| DottedQuad.QuadDenotes(es, s, DottedQuad.Quad(s).value);
      assert forall i | 0 <= i < |es| :: DottedQuad.IsOctet(es[i]);
      JoinUnique(ds, es);
    }
    if |ds| == 4 && DottedQuad.AllOctets(ds) {
      DottedQuad.QuadExact(s, DottedQuad.Octets(ds));
      assert DottedQuad.QuadDenotes(ds, s, DottedQuad.Octets(ds));
    }
  }

  /** Such texts: one to three octets, which inet_aton fills up with zeros and inet_pton4 rejects. */
  lemma ShortForms(ds: seq<string>, m: nat)
    requires DottedQuad.IsWidth(m) && 1 <= |ds| <= 3 && DottedQuad.AllOctets(ds)
    ensures DottedQuad.Aton(DottedQuad.Join(ds), m) == Some(DottedQuad.Octets(ds) + Zeros(4 - |ds|))
    ensures DottedQuad.Quad(DottedQuad.Join(ds)) == None
  {
    forall i | 0 <= i < |ds|
      ensures DottedQuad.IsComponent(ds[i], m) && DottedQuad.Reduced(ds[i], m) == DottedQuad.Decimal(ds[i])
    {
      assert DottedQuad.IsOctet(ds[i]);
      DottedQuad.ReducedIsDecimal(ds[i], m);
    }
    var s, b := DottedQuad.Join(ds), DottedQuad.Octets(ds) + Zeros(4 - |ds|);
    assert DottedQuad.Components(ds, m) == DottedQuad.Octets(ds);
    assert DottedQuad.AtonDenotes(ds, s, m, b);
    DottedQuad.AtonExact(s, m, b);
    AtonBeyondQuad(s, m, ds, b);
  }

  // ----- address texts -----

  lemma QuadChars(q: string)
    requires DottedQuad.Quad(q).Some?
    ensures ':' !in q && '.' in q
  {
    DottedQuad.QuadExact(q, DottedQuad.Quad(q).value);
    var ds :| DottedQuad.QuadDenotes(ds, q, DottedQuad.Quad(q).value);
    assert forall i | 0 <= i < |ds| :: DottedQuad.IsOctet(ds[i]);
    JoinChars(ds);
    FirstPiece(ds);
  }

  lemma GroupChars(g: string)
    requires IsGroup(g)
    ensures ':' !in g && '.' !in g
  {
    assert forall i | 0 <= i < |g| :: IsHex(g[i]);
  }

  lemma LastChars(l: Last)
    requires LastOk(l)
    ensures ':' !in LastText(l) && ('.' in LastText(l) <==> l.Dotted?) && (LastText(l) == "" <==> l.End?)
  {
    match l
    case End =>
    case Group(g) => GroupChars(g);
    case Dotted(q) => QuadChars(q);
  }

  lemma LastUnique(l: Last, m: Last)
    requires LastOk(l) && LastOk(m) && LastText(l) == LastText(m)
    ensures l == m
  {
    LastChars(l);
    LastChars(m);
  }

  /** A text has a colon exactly if it has a group before one, or a gap; and starts with one exactly if with the gap. */
  lemma ColonsIn(p: Pres)
    requires Shaped(p)
    ensures ':' in Body(p) <==> p.head != [] || p.gap
    ensures Body(p) != "" && Body(p)[0] == ':' <==> p.head == [] && p.gap
  {
    TextStart(p);
    if p.head != [] {
      assert Body(p)[|p.head[0]|] == ':';
    } else if !p.gap {
      LastChars(p.last);
    }
  }

  lemma {:induction false} BodyUnique(p: Pres, q: Pres)
    requires Shaped(p) && Shaped(q) && Body(p) == Body(q)
    ensures p == q
    decreases p.gap, |p.head|
  {
    ColonsIn(p);
    ColonsIn(q);
    if p.head != [] {
      HeadsUnique(p, q);
      BodyUnique(p.(head := p.head[1..]), q.(head := q.head[1..]));
      Uncons(p.head);
      Uncons(q.head);
    } else if p.gap {
      var a, b := Pres(p.tail, false, [], p.last), Pres(q.tail, false, [], q.last);
      GapFirst(a);
      GapFirst(b);
      assert Body(a) == Body(p)[1..] && Body(b) == Body(q)[1..];
      BodyUnique(a, b);
    } else {
      LastUnique(p.last, q.last);
    }
  }

  lemma HeadsUnique(p: Pres, q: Pres)
    requires Shaped(p) && Shaped(q) && Body(p) == Body(q) && p.head != [] && q.head != []
    ensures p.head[0] == q.head[0]
    ensures var a, b := p.(head := p.head[1..]), q.(head := q.head[1..]); Shaped(a) && Shaped(b) && Body(a) == Body(b)
  {
    var a, b := p.(head := p.head[1..]), q.(head := q.head[1..]);
    GroupChars(p.head[0]);
    GroupChars(q.head[0]);
    SplitOnce(p.head[0], q.head[0], ':', Body(a), Body(b));
  }

  /** An address text is made of its parts in one way only. */
  lemma Unambiguous(p: Pres, q: Pres)
    requires Shaped(p) && Shaped(q) && Text(p) == Text(q)
    ensures p == q
  {
    ColonsIn(p);
    ColonsIn(q);
    if p.gap && p.head == [] {
      assert Text(p)[1..] == Body(p);
      assert Text(p)[0] == Text(p)[1] == ':';
    }
    if q.gap && q.head == [] {
      assert Text(q)[1..] == Body(q);
      assert Text(q)[0] == Text(q)[1] == ':';
    }
    BodyUnique(p, q);
  }

  predicate HasLongGroup(p: Pres) {
    || (exists i | 0 <= i < |p.head| :: |p.head[i]| > 4)
    || (exists i | 0 <= i < |p.tail| :: |p.tail[i]| > 4)
    || (p.last.Group? && |p.last.g| > 4)
  }

  /** A colon at the end that is not the second of a "::". */
  predicate EndsInColon(p: Pres) { p.last == End && !(p.gap && p.tail == []) }

  /** "::" beside eight groups. */
  predicate HasIdleGap(p: Pres)
    requires Shaped(p)
  {
    p.gap && |Written(p)| == 16
  }

  lemma StandardExactly(p: Pres)
    requires Accepted(p)
    ensures Standard(p) <==> !HasLongGroup(p) && !EndsInColon(p) && !HasIdleGap(p)
  {
    assert forall i | 0 <= i < |p.head| :: IsGroup(p.head[i]);
    assert forall i | 0 <= i < |p.tail| :: IsGroup(p.tail[i]);
  }

  /** The accepted texts that are not standard are those with a long group, a colon at the end, or an idle gap. */
  lemma BeyondStandard(p: Pres)
    requires Accepted(p)
    ensures Standard(p) <==> !HasLongGroup(p) && !EndsInColon(p) && !HasIdleGap(p)
    ensures (exists q :: Standard(q) && Text(q) == Text(p)) <==> Standard(p)
  {
    StandardExactly(p);
    if q :| Standard(q) && Text(q) == Text(p) {
      StandardShaped(q);
      Unambiguous(p, q);
    }
  }

  /** Such texts: the sixteen bytes of eight groups, with a colon after the last. */
  lemma TrailingColon(gs: seq<string>)
    requires |gs| == 8 && AllGroups(gs)
    ensures Pton6(Then(gs, "")) == Some(GroupBytes(gs)) && !Standard(Pres(gs, false, [], End))
  {
    var p := Pres(gs, false, [], End);
    assert Body(p) == Then(gs, "") && BytesAfterHead(p) == [];
    EmptyRight(GroupBytes(gs));
    Accepts(p);
  }

  /** Such texts: a group of any length whose value fits, before "::". */
  lemma LongGroup(g: string)
    requires IsGroup(g) && |g| > 4
    ensures Pton6(g + (":" + ":")) == Some(WordBytes(HexValue(g)) + Zeros(14)) && !Standard(Pres([g], true, [], End))
  {
    var p := Pres([g], true, [], End);
    assert Then([], "") == "" && AfterHead(p) == ":" && Then([], ":") == ":";
    assert Text(p) == g + (":" + ":") by { assert [g][1..] == []; }
    EmptyRight(WordBytes(HexValue(g)));
    assert GroupBytes([g]) == WordBytes(HexValue(g)) by { assert [g][1..] == [] && GroupBytes([]) == []; }
    assert BytesAfterHead(p) == [];
    EmptyRight(GroupBytes([g]));
    Accepts(p);
    FilledParts(GroupBytes([g]), []);
    EmptyRight(WordBytes(HexValue(g)) + Zeros(14));
  }

  // ----- the case of the letters -----

  function UpperChar(c: char): char {
    if c in XDIGITS_L && HexDigit(c) >= 10 then XDIGITS_U[HexDigit(c)] else c
  }

  /** s with its letters a to f turned into A to F. */
  function Upper(s: string): (t: string)
    ensures |t| == |s|
  {
    seq(|s|, i requires 0 <= i < |s| => UpperChar(s[i]))
  }

  lemma UpperKeeps(c: char)
    ensures IsHex(UpperChar(c)) == IsHex(c) && HexDigit(UpperChar(c)) == HexDigit(c)
    ensures DottedQuad.IsDigit(UpperChar(c)) == DottedQuad.IsDigit(c) && (DottedQuad.IsDigit(c) ==> UpperChar(c) == c)
    ensures (UpperChar(c) == ':' <==> c == ':') && (UpperChar(c) == '.' <==> c == '.')
  {
    HexTables(c);
    HexTables(UpperChar(c));
  }

  lemma UpperConcat(s: string, t: string)
    ensures Upper(s + t) == Upper(s) + Upper(t)
  {
    forall i | 0 <= i < |s + t| ensures Upper(s + t)[i] == (Upper(s) + Upper(t))[i] {
      if i < |s| { assert (s + t)[i] == s[i]; } else { assert (s + t)[i] == t[i - |s|]; }
    }
  }

  lemma UpperCons(s: string)
    requires s != ""
    ensures Upper(s)[0] == UpperChar(s[0]) && Upper(s)[1..] == Upper(s[1..])
  {
  }

  lemma {:induction false} HexValueUpper(s: string)
    ensures HexValue(Upper(s)) == HexValue(s)
  {
    if s != "" {
      HexValueUpper(s[..|s| - 1]);
      UpperKeeps(s[|s| - 1]);
      assert Upper(s)[..|s| - 1] == Upper(s[..|s| - 1]);
    }
  }

  lemma {:induction false} QuadScanUpper(s: string, done: seq<byte>, cur: string)
    ensures DottedQuad.Scan(Upper(s), done, cur) == DottedQuad.Scan(s, done, cur)
    decreases |s|
  {
    if s != "" {
      UpperCons(s);
      UpperKeeps(s[0]);
      if DottedQuad.IsDigit(s[0]) {
        QuadScanUpper(s[1..], done, cur + [s[0]]);
      } else if s[0] == '.' {
        QuadScanUpper(s[1..], done + (if DottedQuad.Decimal(cur) <= 255 then [DottedQuad.Decimal(cur)] else []), "");
      }
    }
  }

  lemma HexValueUpperSnoc(s: string, c: char)
    ensures HexValue(Upper(s) + [UpperChar(c)]) == HexValue(s + [c]) && Upper(s + [c]) == Upper(s) + [UpperChar(c)]
  {
    assert Upper(s + [c]) == Upper(s) + [UpperChar(c)] by {
      UpperConcat(s, [c]);
      assert Upper([c]) == [UpperChar(c)];
    }
    HexValueUpper(s + [c]);
  }

  /** The quad reader does not tell them apart either. */
  lemma QuadUpper(cur: string, s: string)
    ensures DottedQuad.Quad(Upper(cur) + Upper(s)) == DottedQuad.Quad(cur + s)
  {
    UpperConcat(cur, s);
    QuadScanUpper(cur + s, [], "");
  }

  function UpperAt(a: At): At { a.(cur := Upper(a.cur)) }

  lemma UpperSound(a: At)
    requires Sound(a)
    ensures Sound(UpperAt(a))
  {
    HexValueUpper(a.cur);
  }

  lemma StepHexUpper(s: string, a: At)
    requires s != "" && Sound(a) && Sound(UpperAt(a)) && IsHex(s[0])
    ensures Step(s, a).Stop? ==> Step(Upper(s), UpperAt(a)) == Step(s, a)
    ensures Step(s, a).More? ==> Step(Upper(s), UpperAt(a)) == More(UpperAt(Step(s, a).next))
  {
    UpperCons(s);
    UpperKeeps(s[0]);
    HexValueUpperSnoc(a.cur, s[0]);
  }

  lemma StepOtherUpper(s: string, a: At)
    requires s != "" && Sound(a) && Sound(UpperAt(a)) && !IsHex(s[0])
    ensures Step(s, a).Stop? ==> Step(Upper(s), UpperAt(a)) == Step(s, a)
    ensures Step(s, a).More? ==> Step(Upper(s), UpperAt(a)) == More(UpperAt(Step(s, a).next))
  {
    UpperCons(s);
    UpperKeeps(s[0]);
    HexValueUpper(a.cur);
    if s[0] == '.' {
      QuadUpper(a.cur, s);
    } else {
      assert Upper("") == "";
    }
  }

  lemma {:induction false} RunUpper(s: string, a: At)
    requires Sound(a) && Sound(UpperAt(a))
    ensures Run(Upper(s), UpperAt(a)) == Run(s, a)
    decreases |s|
  {
    if s == "" {
      HexValueUpper(a.cur);
    } else {
      UpperCons(s);
      if IsHex(s[0]) { StepHexUpper(s, a); } else { StepOtherUpper(s, a); }
      if Step(s, a).More? {
        UpperSound(Step(s, a).next);
        RunUpper(s[1..], Step(s, a).next);
      }
    }
  }

  /** Hexadecimal letters may be written in either case: the address is the same, and so is a rejection. */
  lemma CaseDoesNotMatter(s: string)
    ensures Pton6(Upper(s)) == Pton6(s)
  {
    var a := At("", [], None);
    assert UpperAt(a) == a by { assert Upper("") == ""; }
    if s == "" {
      assert Upper(s) == s;
    } else {
      UpperCons(s);
      UpperKeeps(s[0]);
      if |s| >= 2 { UpperKeeps(s[1]); }
      RunUpper(s, a);
      RunUpper(s[1..], a);
    }
  }
}
