/** inet_pton6 as it runs: one pass over the text into a sixteen-byte scratch array, then the shift. */
module Inet6Reader {
  import opened Basics
  import opened Inet6Grammar
  import DottedQuad

  /** The state of the scratch array after m steps of the shift; d cells are to be crossed. */
  ghost predicate Shifting(now: seq<byte>, was: seq<byte>, tp: nat, colonp: nat, m: nat) {
    && |now| == |was| == 16 && colonp <= tp <= 16 && m <= tp - colonp
    && (forall k | 0 <= k < tp - m :: now[k] == was[k])
    && (forall k | tp - m <= k < 16 - m :: now[k] == 0)
    && (forall k | 16 - m <= k < 16 :: now[k] == if tp < 16 then was[k - (16 - tp)] else 0)
  }

  /** Moves the bytes after the gap to the end, each copied and then cleared at its old place. */
  method ShiftTail(tmp: array<byte>, tp: nat, colonp: nat)
    requires tmp.Length == 16 && colonp <= tp <= 16
    requires forall k | tp <= k < 16 :: tmp[k] == 0
    modifies tmp
    ensures tmp[..] == Filled(old(tmp[..tp]), colonp)
  {
    var n := tp - colonp;
    ghost var was := tmp[..];
    for i := 1 to n + 1
      invariant Shifting(tmp[..], was, tp, colonp, i - 1)
    {
      tmp[16 - i] := tmp[colonp + n - i];
      tmp[colonp + n - i] := 0;
    }
    assert was[..tp] == old(tmp[..tp]);
    assert tmp[..] == Filled(was[..tp], colonp);
  }

  /** The bytes stored so far, with cleared cells after them. */
  ghost predicate Stored(cells: seq<byte>, tp: nat, out: seq<byte>) {
    |cells| == 16 && tp <= 16 && out == cells[..tp] && forall k | tp <= k < 16 :: cells[k] == 0
  }

  method StoreWord(tmp: array<byte>, tp: nat, val: word, ghost out: seq<byte>)
    requires tp + 2 <= tmp.Length && Stored(tmp[..], tp, out)
    modifies tmp
    ensures Stored(tmp[..], tp + 2, out + WordBytes(val))
  {
    tmp[tp] := val / 256;
    tmp[tp + 1] := val % 256;
  }

  /** Where the scan of src stands at index i: the token runs from curtok to i. */
  ghost function Here(src: string, curtok: nat, i: nat, out: seq<byte>, colonp: int): At
    requires curtok <= i <= |src|
  {
    At(src[curtok..i], out, if colonp < 0 then None else Some(colonp))
  }

  /** What one character does to the scan, by the kind of character. */
  lemma StepHex(src: string, curtok: nat, i: nat, out: seq<byte>, colonp: int)
    requires curtok <= i < |src| && IsHex(src[i]) && Sound(Here(src, curtok, i, out, colonp))
    ensures HexValue(src[curtok..i + 1]) == HexValue(src[curtok..i]) * 16 + HexDigit(src[i])
    ensures Run(src[i..], Here(src, curtok, i, out, colonp))
         == if HexValue(src[curtok..i + 1]) > 0xffff then None
            else Run(src[i + 1..], Here(src, curtok, i + 1, out, colonp))
  {
    HexSnoc(src[curtok..i], src[i]);
    assert src[curtok..i + 1] == src[curtok..i] + [src[i]];
    assert src[i..][1..] == src[i + 1..];
  }

  lemma StepGap(src: string, i: nat, out: seq<byte>, colonp: int)
    requires i < |src| && src[i] == ':' && Sound(Here(src, i, i, out, colonp))
    ensures HexValue(src[i + 1..i + 1]) == 0
    ensures Run(src[i..], Here(src, i, i, out, colonp))
         == if colonp >= 0 then None else Run(src[i + 1..], Here(src, i + 1, i + 1, out, |out|))
  {
    assert src[i..][1..] == src[i + 1..];
  }

  lemma StepGroup(src: string, curtok: nat, i: nat, out: seq<byte>, colonp: int)
    requires curtok < i < |src| && src[i] == ':' && Sound(Here(src, curtok, i, out, colonp))
    ensures HexValue(src[i + 1..i + 1]) == 0
    ensures Run(src[i..], Here(src, curtok, i, out, colonp))
         == if |out| + 2 > 16 then None
            else Run(src[i + 1..], Here(src, i + 1, i + 1, out + WordBytes(HexValue(src[curtok..i])), colonp))
  {
    assert src[i..][1..] == src[i + 1..];
  }

  lemma StepOther(src: string, curtok: nat, i: nat, out: seq<byte>, colonp: int)
    requires curtok <= i < |src| && !IsHex(src[i]) && src[i] != ':' && Sound(Here(src, curtok, i, out, colonp))
    ensures Run(src[i..], Here(src, curtok, i, out, colonp))
         == if src[i] == '.' && |out| + 4 <= 16 && DottedQuad.Quad(src[curtok..]).Some?
            then Some(Raw(out + DottedQuad.Quad(src[curtok..]).value, Here(src, curtok, i, out, colonp).colon))
            else None
  {
    assert src[curtok..] == src[curtok..i] + src[i..];
  }

  lemma StepEnd(src: string, curtok: nat, out: seq<byte>, colonp: int)
    requires curtok <= |src| && Sound(Here(src, curtok, |src|, out, colonp))
    ensures Run(src[|src|..], Here(src, curtok, |src|, out, colonp)) == AtEnd(Here(src, curtok, |src|, out, colonp))
  {
  }

  /** The dotted-quad reader called on the scratch array in the middle of a pass. */
  method StoreQuad(text: string, tmp: array<byte>, tp: nat, ghost out: seq<byte>) returns (ok: bool)
    requires tp + 4 <= tmp.Length && Stored(tmp[..], tp, out)
    modifies tmp
    ensures ok == DottedQuad.Quad(text).Some?
    ensures ok ==> Stored(tmp[..], tp + 4, out + DottedQuad.Quad(text).value)
  {
    var rc := DottedQuad.InetPton4(text, tmp, tp);
    ok := rc > 0;
  }

  /** The last part of the reader: the shift, the length test and the copy to the caller. */
  method Deliver(tmp: array<byte>, tp: nat, colonp: int, dst: array<byte>) returns (rc: int)
    requires tmp != dst && tmp.Length == 16 && dst.Length >= 16 && -1 <= colonp <= tp <= 16
    requires forall k | tp <= k < 16 :: tmp[k] == 0
    modifies tmp, dst
    ensures var b := Finish(Raw(old(tmp[..tp]), if colonp == -1 then None else Some(colonp)));
      if b.None? then rc == 0 && dst[..] == old(dst[..]) else rc == 1 && dst[..] == b.value + old(dst[16..])
  {
    var end := tp;
    if colonp != -1 {
      ShiftTail(tmp, tp, colonp);
      end := 16;
    }
    if end != 16 { return 0; }
    assert tmp[..16] == tmp[..];
    forall k | 0 <= k < 16 { dst[k] := tmp[k]; }
    rc := 1;
  }

  ghost function Colon(colonp: int): Option<nat> { if colonp < 0 then None else Some(colonp) }

  /** The local variables of the loop, with the bytes stored so far in the place of the scratch array. */
  datatype Cursor = Cursor(i: nat, curtok: nat, sawXdigit: bool, val: int, out: seq<byte>, colonp: int)

  ghost predicate CursorOk(src: string, c: Cursor) {
    && c.curtok <= c.i <= |src| && -1 <= c.colonp <= |c.out| <= 16
    && c.sawXdigit == (c.curtok < c.i) && c.val == HexValue(src[c.curtok..c.i]) <= 0xffff
  }

  /** What the scan still makes of the text from here on. */
  ghost function Pending(src: string, c: Cursor): Option<Raw>
    requires CursorOk(src, c)
  {
    Run(src[c.i..], Here(src, c.curtok, c.i, c.out, c.colonp))
  }

  lemma NextHex(src: string, c: Cursor, d: Cursor)
    requires CursorOk(src, c) && c.i < |src| && IsHex(src[c.i])
    requires d == c.(i := c.i + 1, sawXdigit := true, val := c.val * 16 + HexDigit(src[c.i]))
    ensures if d.val > 0xffff then Pending(src, c) == None else CursorOk(src, d) && Pending(src, d) == Pending(src, c)
  {
    StepHex(src, c.curtok, c.i, c.out, c.colonp);
  }

  lemma NextGap(src: string, c: Cursor, d: Cursor)
    requires CursorOk(src, c) && c.i < |src| && src[c.i] == ':' && !c.sawXdigit
    requires d == c.(i := c.i + 1, curtok := c.i + 1, colonp := |c.out|)
    ensures if c.colonp != -1 then Pending(src, c) == None else CursorOk(src, d) && Pending(src, d) == Pending(src, c)
  {
    StepGap(src, c.i, c.out, c.colonp);
  }

  lemma NextGroup(src: string, c: Cursor, d: Cursor)
    requires CursorOk(src, c) && c.i < |src| && src[c.i] == ':' && c.sawXdigit
    requires d == Cursor(c.i + 1, c.i + 1, false, 0, c.out + WordBytes(c.val), c.colonp)
    ensures if |c.out| + 2 > 16 then Pending(src, c) == None else CursorOk(src, d) && Pending(src, d) == Pending(src, c)
  {
    StepGroup(src, c.curtok, c.i, c.out, c.colonp);
  }

  lemma NextOther(src: string, c: Cursor)
    requires CursorOk(src, c) && c.i < |src| && !IsHex(src[c.i]) && src[c.i] != ':'
    ensures Pending(src, c)
         == if src[c.i] == '.' && |c.out| + 4 <= 16 && DottedQuad.Quad(src[c.curtok..]).Some?
            then Some(Raw(c.out + DottedQuad.Quad(src[c.curtok..]).value, Colon(c.colonp))) else None
  {
    StepOther(src, c.curtok, c.i, c.out, c.colonp);
  }

  lemma AtTextEnd(src: string, c: Cursor)
    requires CursorOk(src, c) && c.i == |src|
    ensures Pending(src, c)
         == if !c.sawXdigit then Some(Raw(c.out, Colon(c.colonp)))
            else if |c.out| + 2 > 16 then None
            else Some(Raw(c.out + WordBytes(c.val), Colon(c.colonp)))
  {
    StepEnd(src, c.curtok, c.out, c.colonp);
  }

  /** What the pass over the text leaves: a failure, or the bytes and the place of the gap. */
  ghost predicate ReadResult(ok: bool, cells: seq<byte>, tp: nat, colonp: int, total: Option<Raw>) {
    if ok then
      total.Some? && Stored(cells, tp, total.value.out) && -1 <= colonp <= tp && total.value.colon == Colon(colonp)
    else
      total == None
  }

  /** A colon (libfree/inet_pton.c:175-190): the gap, or the end of a group. */
  method AtColon(src: string, tmp: array<byte>, i: nat, sawXdigit: bool, val: int, tp: nat, colonp: int,
                  ghost c: Cursor)
    returns (ok: bool, next: nat, gap: int, ghost d: Cursor)
    requires CursorOk(src, c) && i < |src| && src[i] == ':' && tmp.Length == 16
    requires c == Cursor(i, c.curtok, sawXdigit, val, c.out, colonp) && Stored(tmp[..], tp, c.out)
    modifies tmp
    ensures if !ok then Pending(src, c) == None else CursorOk(src, d) && Pending(src, d) == Pending(src, c)
    ensures ok ==> d == Cursor(i + 1, i + 1, false, 0, d.out, gap) && Stored(tmp[..], next, d.out)
  {
    ok, next, gap, d := false, tp, colonp, c;
    if !sawXdigit {
      d := c.(i := i + 1, curtok := i + 1, colonp := tp);
      NextGap(src, c, d);
      if colonp != -1 { return; }
      gap := tp;
    } else {
      d := Cursor(i + 1, i + 1, false, 0, c.out + WordBytes(val), colonp);
      NextGroup(src, c, d);
      if tp + 2 > 16 { return; }
      StoreWord(tmp, tp, val, c.out);
      next := tp + 2;
    }
    ok := true;
  }

  /** The pass over the text from start on, and the store of the last group. */
  method ReadTokens(src: string, start: nat, tmp: array<byte>) returns (ok: bool, tp: nat, colonp: int)
    requires start <= |src| && tmp.Length == 16 && forall k | 0 <= k < 16 :: tmp[k] == 0
    modifies tmp
    ensures ReadResult(ok, tmp[..], tp, colonp, Scan(src[start..], "", [], None))
  {
    ok, tp, colonp := false, 0, -1;
    var i, curtok, sawXdigit, val := start, start, false, 0;
    ghost var c, total := Cursor(start, start, false, 0, [], -1), Scan(src[start..], "", [], None);
    assert src[start..start] == "" && Pending(src, c) == total;
    while i < |src|
      invariant 0 <= curtok && 0 <= i && c == Cursor(i, curtok, sawXdigit, val, c.out, colonp) && CursorOk(src, c)
      invariant Pending(src, c) == total && Stored(tmp[..], tp, c.out)
    {
      var ch := src[i];
      if IsHex(ch) {
        ghost var d := c.(i := i + 1, sawXdigit := true, val := val * 16 + HexDigit(ch));
        NextHex(src, c, d);
        val := val * 16 + HexDigit(ch);
        if val > 0xffff { return false, tp, colonp; }
        sawXdigit, c := true, d;
      } else if ch == ':' {
        var going;
        going, tp, colonp, c := AtColon(src, tmp, i, sawXdigit, val, tp, colonp, c);
        if !going { return false, tp, colonp; }
        sawXdigit, val, curtok := false, 0, i + 1;
      } else {
        NextOther(src, c);
        if ch != '.' || tp + 4 > 16 { return false, tp, colonp; }
        ok := StoreQuad(src[curtok..], tmp, tp, c.out);
        if ok { tp := tp + 4; }
        return;
      }
      i := i + 1;
    }
    AtTextEnd(src, c);
    if sawXdigit {
      if tp + 2 > 16 { return false, tp, colonp; }
      StoreWord(tmp, tp, val, c.out);
      tp := tp + 2;
    }
    ok := true;
  }

  method InetPton6(src: string, dst: array<byte>) returns (rc: int)
    requires dst.Length >= 16
    modifies dst
    ensures rc == if Pton6(src).Some? then 1 else 0
    ensures rc == 0 ==> dst[..] == old(dst[..])
    ensures rc == 1 ==> dst[..] == Pton6(src).value + old(dst[16..])
  {
    var tmp := new byte[16](_ => 0);
    var start := 0;
    if src != "" && src[0] == ':' {
      start := 1;
      if |src| < 2 || src[1] != ':' { return 0; }
    }
    assert src[0..] == src;
    var ok, tp, colonp := ReadTokens(src, start, tmp);
    if !ok { return 0; }
    rc := Deliver(tmp, tp, colonp, dst);
  }
}
