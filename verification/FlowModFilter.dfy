/** do_ofp_flowmod_processed: an ADD loses its tagged match fields and the SET_FIELD actions
    of its first instruction, in place, and is sorted into a queue. */
module FlowModFilter {
  import opened Bytes
  import opened Formats
  import opened Splits
  import opened Priority
  import opened ActionFilter
  import opened MatchFilter
  import opened InstFilter

  const FLOW_MOD_QUEUE_1_ID: nat := 1
  const FLOW_MOD_QUEUE_2_ID: nat := 7
  const ADD: byte := 0

  // The cookie is bytes 4 to 12 of the fixed part, the command its byte 21.
  function Cookie(f: FlowMod): seq<byte>
    requires WfFlowMod(f)
  {
    f.fixed[4..12]
  }

  function Command(f: FlowMod): byte
    requires WfFlowMod(f)
  {
    f.fixed[21]
  }

  /** What the rewriting is for: the same message without the tagged match fields, and with
      the first instruction filtered. */
  function FilterFlowMod(f: FlowMod): FlowMod {
    FlowMod(f.version, f.fixed, FilterMatch(f.mtch),
            if f.insts == [] then [] else [FilterInst(f.insts[0])] + f.insts[1..])
  }

  function DroppedFields(f: FlowMod): seq<SetField> {
    if f.insts == [] then [] else Dropped(f.insts[0])
  }

  function FlowModResidue(f: FlowMod): nat {
    Residue(MatchLen(f.mtch), MatchLen(FilterMatch(f.mtch)))
  }

  ghost predicate FlowModAt(s: seq<byte>, f: FlowMod) {
    WfFlowMod(f) && FlowModLen(f) <= |s| && s[..FlowModLen(f)] == FlowModBytes(f)
  }

  // The message starts with everything before the instructions.
  ghost predicate Head(s: seq<byte>, f: FlowMod, length: u16, m: Match) {
    && WfMatch(m) && |f.fixed| == 44 && 48 + |MatchBytes(m)| <= |s|
    && s[..48 + |MatchBytes(m)|] == FlowModHead(f, length, m)
  }

  lemma {:induction false} PartsOf(s: seq<byte>, f: FlowMod)
    requires FlowModAt(s, f)
    ensures Head(s, f, FlowModLen(f), f.mtch)
    ensures s[48 + |MatchBytes(f.mtch)|..FlowModLen(f)] == InstsBytes(f.insts)
  {
    TwoParts(s, 0, FlowModHead(f, FlowModLen(f), f.mtch), InstsBytes(f.insts));
  }

  lemma {:induction false} FirstInstAt(s: seq<byte>, f: FlowMod)
    requires FlowModAt(s, f) && f.insts != []
    ensures InstAt(s, 48 + Round8(MatchLen(f.mtch)), f.insts[0])
    ensures s[48 + Round8(MatchLen(f.mtch)) + InstLen(f.insts[0])..FlowModLen(f)] == InstsBytes(f.insts[1..])
  {
    hide InstsBytes;
    hide InstBytes;
    hide OxmsBytes;
    hide MatchBytes;
    hide FlowModBytes;
    hide FlowModHead;
    PartsOf(s, f);
    InstsBytesCons(f.insts[0], f.insts[1..]);
    assert [f.insts[0]] + f.insts[1..] == f.insts;
    TwoParts(s, 48 + Round8(MatchLen(f.mtch)), InstBytes(f.insts[0]), InstsBytes(f.insts[1..]));
  }

  // Storing a new length keeps the rest of the head.
  lemma {:induction false} HeadLength(s: seq<byte>, f: FlowMod, length: u16, m: Match, next: u16)
    requires Head(s, f, length, m)
    ensures Head(Overlay(s, 2, PutBe16(next)), f, next, m)
  {
    hide OxmsBytes;
    hide MatchBytes;
    OverlayPrefix(s, 2, PutBe16(next), 48 + |MatchBytes(m)|);
    var a, b, c := [f.version, FLOW_MOD], PutBe16(length), f.fixed + MatchBytes(m);
    assert FlowModHead(f, length, m) == a + b + c;
    OverlayMiddle(a, b, c, PutBe16(next));
    assert FlowModHead(f, next, m) == a + PutBe16(next) + c;
  }

  // Writing a new match over the old one keeps the head's beginning.
  lemma {:induction false} HeadMatch(s: seq<byte>, f: FlowMod, length: u16, m: Match, next: Match)
    requires Head(s, f, length, m) && WfMatch(next) && |MatchBytes(next)| <= |MatchBytes(m)|
    ensures Head(Overlay(s, 48, MatchBytes(next)), f, length, next)
  {
    var t, a := Overlay(s, 48, MatchBytes(next)), [f.version, FLOW_MOD] + PutBe16(length) + f.fixed;
    TwoParts(s, 0, a, MatchBytes(m));
    OverlaySlice(s, 48, MatchBytes(next), 0, 48);
    OverlaySlice(s, 48, MatchBytes(next), 48, 48 + |MatchBytes(next)|);
    JoinSlices(t, 0, 48, 48 + |MatchBytes(next)|);
  }

  // Writing behind it keeps all of it.
  lemma {:induction false} HeadBehind(s: seq<byte>, f: FlowMod, length: u16, m: Match, at: nat, t: seq<byte>)
    requires Head(s, f, length, m) && 48 + |MatchBytes(m)| <= at && at + |t| <= |s|
    ensures Head(Overlay(s, at, t), f, length, m)
  {
    OverlaySlice(s, at, t, 0, 48 + |MatchBytes(m)|);
  }

  // The match in its place.
  lemma {:induction false} HeadHasMatch(s: seq<byte>, f: FlowMod, length: u16, m: Match)
    requires Head(s, f, length, m)
    ensures MatchAt(s, 48, m)
  {
    TwoParts(s, 0, [f.version, FLOW_MOD] + PutBe16(length) + f.fixed, MatchBytes(m));
  }

  // ----- The rewriting, step by step.

  // The scratch buffer is cleared, the fields are packed into it.
  method ClearAndPack(msg: array<byte>, fb: array<byte>, total: u16, ghost m: Match)
    returns (newLen: u16, exceptLen: u16)
    requires msg != fb && MatchAt(msg[..], 48, m) && total == Round8(MatchLen(m)) && total + 10 <= fb.Length
    modifies fb
    ensures WfMatch(FilterMatch(m)) && newLen == |MatchBytes(FilterMatch(m))| <= total
    ensures fb[..][..newLen] == MatchBytes(FilterMatch(m))
    ensures exceptLen + newLen + Residue(MatchLen(m), MatchLen(FilterMatch(m))) == total
  {
    ghost var was := fb[..];
    FillZero(fb, total + 10);
    ClearedFront(was, total + 10, total);
    ghost var clear := fb[..];
    newLen, exceptLen := PackMatchExceptType(msg, 48, fb, m);
    OverlaySlice(clear, 0, MatchBytes(FilterMatch(m)), 0, newLen);
  }

  lemma {:induction false} StoredMatch(s: seq<byte>, f: FlowMod, length: u16, next: u16, m: Match, total: nat)
    requires Head(s, f, length, f.mtch) && WfMatch(m) && |MatchBytes(m)| <= total == |MatchBytes(f.mtch)|
    ensures var t := Overlay(Overlay(s, 2, PutBe16(next)), 48, MatchBytes(m));
            Head(t, f, next, m) && t[48 + |MatchBytes(m)|..] == s[48 + |MatchBytes(m)|..]
  {
    hide InstsBytes;
    hide OxmsBytes;
    hide MatchBytes;
    hide FlowModHead;
    var s1 := Overlay(s, 2, PutBe16(next));
    HeadLength(s, f, length, f.mtch, next);
    HeadMatch(s1, f, next, f.mtch, m);
    OverlayTail(s, 2, PutBe16(next), 48 + |MatchBytes(m)|);
    OverlayTail(s1, 48, MatchBytes(m), 48 + |MatchBytes(m)|);
  }

  /** The match part: the fields are packed into the scratch buffer and copied back. */
  method RewriteMatch(msg: array<byte>, fb: array<byte>, total: u16, ghost f: FlowMod)
    returns (newLen: u16, length: u16)
    requires msg != fb && FlowModAt(msg[..], f)
    requires total == Round8(MatchLen(f.mtch)) && total + 10 <= fb.Length
    modifies msg, fb
    ensures WfMatch(FilterMatch(f.mtch)) && newLen == |MatchBytes(FilterMatch(f.mtch))| <= total
    ensures length + total == FlowModLen(f) + newLen + FlowModResidue(f) && newLen + FlowModResidue(f) <= total
    ensures Head(msg[..], f, length, FilterMatch(f.mtch))
    ensures msg[..][48 + newLen..] == old(msg[..])[48 + newLen..]
  {
    hide InstsBytes;
    hide OxmsBytes;
    hide MatchBytes;
    hide FlowModHead;
    hide FlowModBytesWith;
    hide FilterMatch;
    hide MatchLen;
    hide Round8;
    hide Residue;
    ghost var s := msg[..];
    PartsOf(s, f);
    HeadLengthField(s, f, FlowModLen(f), f.mtch);
    HeadHasMatch(s, f, FlowModLen(f), f.mtch);
    var exceptLen;
    newLen, exceptLen := ClearAndPack(msg, fb, total, f.mtch);
    length := U16(LoadBe16(msg, 2) - exceptLen);
    assert length == FlowModLen(f) - exceptLen;
    StoredMatch(s, f, FlowModLen(f), length, FilterMatch(f.mtch), total);
    StoreBe16(msg, 2, length);
    CopyBytes(msg, 48, fb, 0, newLen, MatchBytes(FilterMatch(f.mtch)));
  }

  lemma {:induction false} ClearedFront(s: seq<byte>, n: nat, k: nat)
    requires k <= n <= |s|
    ensures Overlay(s, 0, Zeros(n))[..k] == Zeros(k)
  {
  }

  lemma {:induction false} HeadLengthField(s: seq<byte>, f: FlowMod, length: u16, m: Match)
    requires Head(s, f, length, m)
    ensures Be16(s, 2) == length
  {
    MiddleOf(s, 0, 48 + |MatchBytes(m)|, [f.version, FLOW_MOD], PutBe16(length), f.fixed + MatchBytes(m));
    assert Be16(s, 2) == Be16(s[2..4], 0);
  }

  // The first instruction slides to its new place right behind the match.
  method MoveInst(msg: array<byte>, newLen: u16, total: u16, ghost f: FlowMod, ghost length: u16, ghost m: Match,
                  ghost i: Instruction)
    requires Head(msg[..], f, length, m) && newLen == |MatchBytes(m)| <= total
    requires InstAt(msg[..], 48 + total, i)
    modifies msg
    ensures Head(msg[..], f, length, m) && InstAt(msg[..], 48 + newLen, i)
    ensures msg[..][48 + newLen + InstLen(i)..] == old(msg[..])[48 + newLen + InstLen(i)..]
  {
    hide InstsBytes;
    hide OxmsBytes;
    hide MatchBytes;
    hide FlowModHead;
    hide ActionsBytes;
    hide InstBytes;
    hide Overlay;
    hide MatchLen;
    ghost var s := msg[..];
    InstHeader(s, 48 + total, i);
    var instLen := LoadBe16(msg, 48 + total + 2);
    ghost var t := MovedInst(s, newLen, total, f, length, m, i);
    SlideLeft(msg, 48 + newLen, 48 + total, instLen, InstBytes(i));
    assert msg[..] == t;
    ghost var head, inst := Head(msg[..], f, length, m), InstAt(msg[..], 48 + newLen, i);
    assert head && inst;
  }

  lemma {:induction false} MovedInst(s: seq<byte>, newLen: nat, total: nat, f: FlowMod, length: u16, m: Match,
                                     i: Instruction)
    returns (t: seq<byte>)
    requires Head(s, f, length, m) && newLen == |MatchBytes(m)| <= total && InstAt(s, 48 + total, i)
    ensures t == Overlay(s, 48 + newLen, InstBytes(i))
    ensures Head(t, f, length, m) && InstAt(t, 48 + newLen, i)
    ensures t[48 + newLen + InstLen(i)..] == s[48 + newLen + InstLen(i)..]
  {
    hide InstsBytes;
    hide OxmsBytes;
    hide FlowModHead;
    hide ActionsBytes;
    hide InstBytes;
    var at, n := 48 + newLen, InstLen(i);
    t := Overlay(s, at, InstBytes(i));
    HeadBehind(s, f, length, m, at, InstBytes(i));
    OverlaySlice(s, at, InstBytes(i), at, at + n);
    OverlayTail(s, at, InstBytes(i), at + n);
  }

  lemma {:induction false} FiveParts(s: seq<byte>, at: nat, a: seq<byte>, b: seq<byte>, c: seq<byte>, d: seq<byte>,
                                     e: seq<byte>)
    requires |a| == 2 && |b| == 2 && |c| == 4 && at + 8 + |d| + |e| <= |s|
    requires s[at..at + 2] == a && s[at + 2..at + 4] == b && s[at + 4..at + 8] == c
    requires s[at + 8..at + 8 + |d|] == d && s[at + 8 + |d|..at + 8 + |d| + |e|] == e
    ensures s[at..at + 8 + |d| + |e|] == a + b + c + d + e
  {
    assert s[at..at + 8 + |d| + |e|]
        == s[at..at + 2] + s[at + 2..at + 4] + s[at + 4..at + 8] + s[at + 8..at + 8 + |d|]
           + s[at + 8 + |d|..at + 8 + |d| + |e|];
  }

  // The bytes the copy loop takes from the scratch buffer: four more than the kept actions
  // have, but those land within the old instruction.
  ghost function Copied(i: Instruction): seq<byte> {
    if i.Apply? then ActionsBytes(Kept(i.acts)) + Zeros(4) else []
  }

  // What ends up in the place of an instruction: the filtered one, behind it the four zeros
  // of the copy loop, and behind these the rest of the old one.
  ghost function LeftBy(i: Instruction): (r: seq<byte>)
    ensures |r| == InstLen(i)
  {
    FilterShrinks(i);
    if |Dropped(i)| == 0 then InstBytes(i)
    else InstBytes(FilterInst(i)) + Zeros(4) + InstBytes(i)[InstLen(FilterInst(i)) + 4..]
  }

  ghost predicate InstLeft(s: seq<byte>, at: nat, i: Instruction) {
    at + InstLen(i) <= |s| && s[at..at + InstLen(i)] == LeftBy(i)
  }

  // The filtered instruction is there, and zeros follow if something was dropped.
  lemma {:induction false} LeftHasInst(s: seq<byte>, at: nat, i: Instruction)
    requires InstLeft(s, at, i)
    ensures InstAt(s, at, FilterInst(i))
    ensures |Dropped(i)| > 0 ==>
              var k := at + InstLen(FilterInst(i));
              k + 4 <= at + InstLen(i) && s[k..k + 4] == Zeros(4)
  {
    hide InstBytes;
    hide Kept;
    hide SetFields;
    FilterShrinks(i);
    if |Dropped(i)| > 0 {
      var x, z, y := InstBytes(FilterInst(i)), Zeros(4), InstBytes(i)[InstLen(FilterInst(i)) + 4..];
      Assoc(x, z, y);
      TwoParts(s, at, x, z + y);
      TwoParts(s, at + |x|, z, y);
    }
  }

  // The instruction once its length is patched: what is to be dropped is still in it.
  ghost predicate HalfInst(s: seq<byte>, at: nat, i: Instruction) {
    && at + InstLen(i) <= |s|
    && if |Dropped(i)| == 0 then InstAt(s, at, FilterInst(i))
       else && s[at..at + 2] == PutBe16(APPLY_ACTIONS)
            && s[at + 2..at + 4] == PutBe16(InstLen(FilterInst(i)))
            && s[at + 4..at + 8] == i.pad && s[at + 8..at + InstLen(i)] == InstBytes(i)[8..]
  }

  lemma {:induction false} FilterShrinks(i: Instruction)
    ensures InstLen(FilterInst(i)) <= InstLen(i)
    ensures |Dropped(i)| > 0 <==> InstLen(FilterInst(i)) < InstLen(i)
    ensures |Dropped(i)| > 0 ==> i.Apply? && 8 + |Copied(i)| <= InstLen(i)
    ensures |Dropped(i)| == 0 ==> FilterInst(i) == i
  {
    if i.Apply? {
      KeptBytes(i.acts);
      NothingDropped(i.acts);
    }
  }

  lemma {:induction false} PatchedLength(s: seq<byte>, at: nat, i: Instruction) returns (t: seq<byte>)
    requires InstAt(s, at, i)
    ensures at + 4 <= |s| && t == Overlay(s, at + 2, PutBe16(InstLen(FilterInst(i))))
    ensures HalfInst(t, at, i) && t[at + InstLen(i)..] == s[at + InstLen(i)..]
  {
    hide InstsBytes;
    hide OxmsBytes;
    hide MatchBytes;
    hide ActionsBytes;
    hide Kept;
    hide SetFields;
    hide Overlay;
    var l := PutBe16(InstLen(FilterInst(i)));
    FilterShrinks(i);
    InstHeader(s, at, i);
    t := Overlay(s, at + 2, l);
    if |Dropped(i)| == 0 {
      OverlaySame(s, at + 2, InstLen(i));
    } else {
      InstParts(s, at, i);
      OverlaySlice(s, at + 2, l, at, at + 2);
      OverlaySlice(s, at + 2, l, at + 2, at + 4);
      OverlaySlice(s, at + 2, l, at + 4, at + 8);
      OverlaySlice(s, at + 2, l, at + 8, at + InstLen(i));
      assert s[at + 8..at + InstLen(i)] == s[at..at + InstLen(i)][8..];
      OverlayTail(s, at + 2, l, at + InstLen(i));
    }
  }

  lemma {:induction false} HalfBefore(s: seq<byte>, at: nat, i: Instruction, to: nat, t: seq<byte>)
    requires HalfInst(s, at, i) && to + |t| <= at
    ensures HalfInst(Overlay(s, to, t), at, i)
    ensures Overlay(s, to, t)[at + InstLen(i)..] == s[at + InstLen(i)..]
  {
    hide InstsBytes;
    hide OxmsBytes;
    hide MatchBytes;
    hide ActionsBytes;
    hide Kept;
    hide SetFields;
    hide InstBytes;
    hide Overlay;
    FilterShrinks(i);
    OverlayTail(s, to, t, at + InstLen(i));
    OverlaySlice(s, to, t, at, at + 2);
    OverlaySlice(s, to, t, at + 2, at + 4);
    OverlaySlice(s, to, t, at + 4, at + 8);
    OverlaySlice(s, to, t, at + 8, at + InstLen(i));
    OverlaySlice(s, to, t, at, at + InstLen(FilterInst(i)));
  }

  // The slices of an overlay c behind the eight bytes of an instruction's header.
  lemma {:induction false} BehindHeader(s: seq<byte>, at: nat, c: seq<byte>, n: nat) returns (t: seq<byte>)
    requires 8 + |c| <= n && at + n <= |s|
    ensures t == Overlay(s, at + 8, c) && |t| == |s|
    ensures t[at..at + 2] == s[at..at + 2] && t[at + 2..at + 4] == s[at + 2..at + 4]
    ensures t[at + 4..at + 8] == s[at + 4..at + 8] && t[at + 8..at + 8 + |c|] == c
    ensures t[at + 8 + |c|..at + n] == s[at + 8..at + n][|c|..] && t[at + n..] == s[at + n..]
  {
    hide Overlay;
    t := Overlay(s, at + 8, c);
    OverlaySlice(s, at + 8, c, at, at + 2);
    OverlaySlice(s, at + 8, c, at + 2, at + 4);
    OverlaySlice(s, at + 8, c, at + 4, at + 8);
    OverlaySlice(s, at + 8, c, at + 8, at + 8 + |c|);
    OverlaySlice(s, at + 8, c, at + 8 + |c|, at + n);
    OverlayTail(s, at + 8, c, at + n);
    assert s[at + 8 + |c|..at + n] == s[at + 8..at + n][|c|..];
  }

  lemma {:induction false} FilledIn(s: seq<byte>, at: nat, i: Instruction)
    requires HalfInst(s, at, i) && |Dropped(i)| > 0
    ensures at + 8 + |Copied(i)| <= at + InstLen(i)
    ensures var t := Overlay(s, at + 8, Copied(i));
            InstLeft(t, at, i) && t[at + InstLen(i)..] == s[at + InstLen(i)..]
  {
    hide InstsBytes;
    hide OxmsBytes;
    hide MatchBytes;
    hide ActionsBytes;
    hide InstBytes;
    hide Copied;
    hide Kept;
    hide SetFields;
    hide Overlay;
    hide LeftBy;
    FilterShrinks(i);
    var c, n := Copied(i), InstLen(i);
    var tail := InstBytes(i)[8 + |c|..];
    var t := BehindHeader(s, at, c, n);
    assert InstBytes(i)[8..][|c|..] == tail;
    FiveParts(t, at, PutBe16(APPLY_ACTIONS), PutBe16(InstLen(FilterInst(i))), i.pad, c, tail);
    FilledParts(i, tail);
  }

  // The parts that were filled in are what is left by the instruction.
  lemma {:induction false} FilledParts(i: Instruction, tail: seq<byte>)
    requires |Dropped(i)| > 0 && i.Apply? && 8 + |Copied(i)| <= InstLen(i) && tail == InstBytes(i)[8 + |Copied(i)|..]
    ensures PutBe16(APPLY_ACTIONS) + PutBe16(InstLen(FilterInst(i))) + i.pad + Copied(i) + tail == LeftBy(i)
  {
    hide ActionsBytes;
    hide Kept;
    hide SetFields;
    var h, a := PutBe16(APPLY_ACTIONS) + PutBe16(InstLen(FilterInst(i))) + i.pad, ActionsBytes(Kept(i.acts));
    Assoc(h, a, Zeros(4));
    assert InstBytes(FilterInst(i)) == h + a;
  }

  // The scratch buffer is cleared, the kept actions are packed into it.
  method ClearAndPackInst(msg: array<byte>, at: nat, fb: array<byte>, pm: PriorityManager, clock: seq<u16>,
                          ghost i: Instruction)
    returns (newLen: u16, kickLen: u16, uep: UepMsg)
    requires msg != fb && InstAt(msg[..], at, i) && InstLen(i) + 10 <= fb.Length
    requires |Dropped(i)| == |clock| && pm.Valid() && pm.Ptrs().tail + |clock| + 65536 < TWO_32
    modifies msg, fb, pm, pm.windowBuffer, pm.windowBuffer.buffer
    ensures newLen == InstLen(FilterInst(i)) && kickLen + newLen == InstLen(i)
    ensures msg[..] == Overlay(old(msg[..]), at + 2, PutBe16(newLen))
    ensures i.Apply? ==> newLen - 4 <= fb.Length && fb[..][..newLen - 4] == Copied(i)
    ensures uep == LastUep(Dropped(i), clock)
    ensures pm.Valid() && pm.Ptrs() == AdvanceAll(old(pm.Ptrs()), pm.windowSize, clock)
    ensures pm.log == old(pm.log) + ChargesFor(Dropped(i), BookedWindows(old(pm.Ptrs()), pm.windowSize, clock))
  {
    hide Kept;
    hide SetFields;
    hide InstBytes;
    hide LastUep;
    hide ChargesFor;
    hide BookedWindows;
    hide AdvanceAll;
    InstHeader(msg[..], at, i);
    var instLen := LoadBe16(msg, at + 2);
    ghost var was := fb[..];
    FillZero(fb, instLen as int + 10);
    FilterShrinks(i);
    newLen, kickLen, uep := PackInstExceptType(msg, at, fb, pm, clock, i);
    if i.Apply? {
      PackedActions(was, instLen as int + 10, ActionsBytes(Kept(i.acts)));
    }
  }

  // The same, seen as a step of the rewriting.
  method PackInst(msg: array<byte>, at: nat, fb: array<byte>, pm: PriorityManager, clock: seq<u16>,
                  ghost f: FlowMod, ghost length: u16, ghost m: Match, ghost i: Instruction)
    returns (newLen: u16, kickLen: u16, uep: UepMsg)
    requires msg != fb && Head(msg[..], f, length, m) && at == 48 + |MatchBytes(m)|
    requires InstAt(msg[..], at, i) && InstLen(i) + 10 <= fb.Length
    requires |Dropped(i)| == |clock| && pm.Valid() && pm.Ptrs().tail + |clock| + 65536 < TWO_32
    modifies msg, fb, pm, pm.windowBuffer, pm.windowBuffer.buffer
    ensures newLen == InstLen(FilterInst(i)) && kickLen + newLen == InstLen(i)
    ensures Head(msg[..], f, length, m) && HalfInst(msg[..], at, i)
    ensures msg[..][at + InstLen(i)..] == old(msg[..])[at + InstLen(i)..]
    ensures i.Apply? ==> newLen - 4 <= fb.Length && fb[..][..newLen - 4] == Copied(i)
    ensures uep == LastUep(Dropped(i), clock)
    ensures pm.Valid() && pm.Ptrs() == AdvanceAll(old(pm.Ptrs()), pm.windowSize, clock)
    ensures pm.log == old(pm.log) + ChargesFor(Dropped(i), BookedWindows(old(pm.Ptrs()), pm.windowSize, clock))
  {
    hide InstsBytes;
    hide OxmsBytes;
    hide MatchBytes;
    hide FlowModHead;
    hide ActionsBytes;
    hide InstBytes;
    hide Kept;
    hide SetFields;
    hide LastUep;
    hide ChargesFor;
    hide BookedWindows;
    hide AdvanceAll;
    ghost var s := msg[..];
    ghost var t := PatchedLength(s, at, i);
    HeadBehind(s, f, length, m, at + 2, PutBe16(InstLen(FilterInst(i))));
    newLen, kickLen, uep := ClearAndPackInst(msg, at, fb, pm, clock, i);
    assert msg[..] == t;
    ghost var head, half, valid := Head(msg[..], f, length, m), HalfInst(msg[..], at, i), pm.Valid();
    assert head && half && valid;
  }

  lemma {:induction false} PackedActions(s: seq<byte>, n: nat, a: seq<byte>)
    requires |a| + 4 <= n <= |s|
    ensures Overlay(Overlay(s, 0, Zeros(n)), 0, a)[..|a| + 4] == a + Zeros(4)
  {
  }

  // The header's length, patched a second time.
  method StoreLength(msg: array<byte>, kickLen: u16, at: nat,
                     ghost f: FlowMod, ghost length: u16, ghost m: Match, ghost i: Instruction)
    requires Head(msg[..], f, length, m) && at == 48 + |MatchBytes(m)| && kickLen <= length
    requires HalfInst(msg[..], at, i)
    modifies msg
    ensures Head(msg[..], f, length - kickLen, m) && HalfInst(msg[..], at, i)
    ensures msg[..][at + InstLen(i)..] == old(msg[..])[at + InstLen(i)..]
  {
    hide InstsBytes;
    hide OxmsBytes;
    hide MatchBytes;
    hide FlowModHead;
    hide ActionsBytes;
    hide InstBytes;
    hide Kept;
    hide FilterInst;
    hide HalfInst;
    ghost var s, next := msg[..], PutBe16(length - kickLen);
    HeadLengthField(s, f, length, m);
    HeadLength(s, f, length, m, length - kickLen);
    HalfBefore(s, at, i, 2, next);
    StoreBe16(msg, 2, U16(LoadBe16(msg, 2) - kickLen));
    assert msg[..] == Overlay(s, 2, next);
    ghost var head, half := Head(msg[..], f, length - kickLen, m), HalfInst(msg[..], at, i);
    assert head && half;
  }

  // The kept actions, copied back.
  method StoreActions(msg: array<byte>, fb: array<byte>, newInstLen: u16, at: nat,
                      ghost f: FlowMod, ghost length: u16, ghost m: Match, ghost i: Instruction)
    requires msg != fb && Head(msg[..], f, length, m) && at == 48 + |MatchBytes(m)|
    requires HalfInst(msg[..], at, i) && |Dropped(i)| > 0 && newInstLen == InstLen(FilterInst(i))
    requires newInstLen - 4 <= fb.Length && fb[..][..newInstLen - 4] == Copied(i)
    modifies msg
    ensures Head(msg[..], f, length, m) && InstLeft(msg[..], at, i)
    ensures msg[..][at + InstLen(i)..] == old(msg[..])[at + InstLen(i)..]
  {
    hide InstsBytes;
    hide OxmsBytes;
    hide MatchBytes;
    hide FlowModHead;
    hide ActionsBytes;
    hide InstBytes;
    hide Kept;
    hide FilterInst;
    hide LeftBy;
    ghost var s := msg[..];
    FilledIn(s, at, i);
    HeadBehind(s, f, length, m, at + 8, Copied(i));
    CopyBytes(msg, at + 8, fb, 0, newInstLen - 4, Copied(i));
    assert msg[..] == Overlay(s, at + 8, Copied(i));
    ghost var head, inst := Head(msg[..], f, length, m), InstLeft(msg[..], at, i);
    assert head && inst;
  }

  method PatchInst(msg: array<byte>, fb: array<byte>, newInstLen: u16, kickLen: u16, at: nat,
                   ghost f: FlowMod, ghost length: u16, ghost m: Match, ghost i: Instruction)
    requires msg != fb && Head(msg[..], f, length, m) && at == 48 + |MatchBytes(m)| && kickLen <= length
    requires HalfInst(msg[..], at, i)
    requires newInstLen == InstLen(FilterInst(i)) && kickLen + newInstLen == InstLen(i)
    requires i.Apply? ==> newInstLen - 4 <= fb.Length && fb[..][..newInstLen - 4] == Copied(i)
    modifies msg
    ensures Head(msg[..], f, length - kickLen, m) && InstLeft(msg[..], at, i)
    ensures msg[..][at + InstLen(i)..] == old(msg[..])[at + InstLen(i)..]
  {
    hide InstsBytes;
    hide OxmsBytes;
    hide MatchBytes;
    hide FlowModHead;
    hide InstBytes;
    hide Kept;
    hide SetFields;
    FilterShrinks(i);
    StoreLength(msg, kickLen, at, f, length, m, i);
    if kickLen > 0 {
      StoreActions(msg, fb, newInstLen, at, f, length - kickLen, m, i);
    }
  }

  /** The instruction part: the actions are filtered through the scratch buffer and both
      lengths are patched. */
  method RewriteInst(msg: array<byte>, fb: array<byte>, pm: PriorityManager, clock: seq<u16>, at: nat,
                     ghost f: FlowMod, ghost length: u16, ghost m: Match, ghost i: Instruction)
    returns (kickLen: u16, uep: UepMsg)
    requires msg != fb && Head(msg[..], f, length, m) && at == 48 + |MatchBytes(m)|
    requires InstAt(msg[..], at, i) && InstLen(i) + 10 <= fb.Length && InstLen(i) <= length
    requires |Dropped(i)| == |clock| && pm.Valid() && pm.Ptrs().tail + |clock| + 65536 < TWO_32
    modifies msg, fb, pm, pm.windowBuffer, pm.windowBuffer.buffer
    ensures kickLen + InstLen(FilterInst(i)) == InstLen(i) && uep == LastUep(Dropped(i), clock)
    ensures Head(msg[..], f, length - kickLen, m) && InstLeft(msg[..], at, i)
    ensures msg[..][at + InstLen(i)..] == old(msg[..])[at + InstLen(i)..]
    ensures pm.Valid() && pm.Ptrs() == AdvanceAll(old(pm.Ptrs()), pm.windowSize, clock)
    ensures pm.log == old(pm.log) + ChargesFor(Dropped(i), BookedWindows(old(pm.Ptrs()), pm.windowSize, clock))
  {
    hide InstLeft;
    hide Head;
    hide HalfInst;
    FilterShrinks(i);
    var newInstLen;
    newInstLen, kickLen, uep := PackInst(msg, at, fb, pm, clock, f, length, m, i);
    PatchInst(msg, fb, newInstLen, kickLen, at, f, length, m, i);
    ghost var valid := pm.Valid();
    assert valid;
  }

  lemma {:induction false} FilterKeepsWf(f: FlowMod)
    requires WfFlowMod(f) && WfMatch(FilterMatch(f.mtch))
    requires |MatchBytes(FilterMatch(f.mtch))| + FlowModResidue(f) <= Round8(MatchLen(f.mtch))
    ensures WfFlowMod(FilterFlowMod(f)) && FlowModLen(FilterFlowMod(f)) + FlowModResidue(f) <= FlowModLen(f)
    ensures f.insts != [] ==>
              FlowModLen(f) == 48 + Round8(MatchLen(f.mtch)) + InstLen(f.insts[0]) + |InstsBytes(f.insts[1..])|
    ensures f.insts != [] ==>
              InstsBytes(FilterFlowMod(f).insts) == InstBytes(FilterInst(f.insts[0])) + InstsBytes(f.insts[1..])
  {
    if f.insts != [] {
      FilterShrinks(f.insts[0]);
      InstsBytesCons(FilterInst(f.insts[0]), f.insts[1..]);
    }
  }

  // The fixed fields the code reads, before and after the rewriting.
  lemma {:induction false} FixedFields(s: seq<byte>, f: FlowMod, length: u16, m: Match)
    requires WfFlowMod(f) && Head(s, f, length, m)
    ensures s[25] == Command(f) && s[8..16] == Cookie(f) && Be16(s, 2) == length && Be16(s, 50) == MatchLen(m)
  {
    hide OxmsBytes;
    hide InstsBytes;
    MiddleOf(s, 0, 48 + |MatchBytes(m)|, [f.version, FLOW_MOD] + PutBe16(length), f.fixed, MatchBytes(m));
    var x := s[4..48];
    assert s[25] == x[21] && s[8..16] == x[4..12];
    HeadLengthField(s, f, length, m);
    HeadHasMatch(s, f, length, m);
    MatchHeader(s, 48, m);
  }

  // There is an instruction exactly if at least two bytes follow the match.
  lemma {:induction false} HasInst(f: FlowMod)
    requires WfFlowMod(f)
    ensures U64(FlowModLen(f) - 48 - Round8(MatchLen(f.mtch))) >= 2 <==> f.insts != []
  {
    U64Small(|InstsBytes(f.insts)|);
  }

  // ----- The stages of the rewriting: s is the message now, was the message received. The
  // bytes behind the part that was written last are those received.

  ghost predicate MatchDone(s: seq<byte>, was: seq<byte>, f: FlowMod, length: u16) {
    var m, total := FilterMatch(f.mtch), 48 + Round8(MatchLen(f.mtch));
    && FlowModAt(was, f) && |s| == |was| && WfMatch(m)
    && 48 + |MatchBytes(m)| + FlowModResidue(f) <= total
    && length + total == FlowModLen(f) + 48 + |MatchBytes(m)| + FlowModResidue(f)
    && Head(s, f, length, m) && s[48 + |MatchBytes(m)|..] == was[48 + |MatchBytes(m)|..]
  }

  ghost predicate InstMoved(s: seq<byte>, was: seq<byte>, f: FlowMod, length: u16) {
    var m, total := FilterMatch(f.mtch), 48 + Round8(MatchLen(f.mtch));
    && FlowModAt(was, f) && |s| == |was| && WfMatch(m)
    && 48 + |MatchBytes(m)| + FlowModResidue(f) <= total
    && length + total == FlowModLen(f) + 48 + |MatchBytes(m)| + FlowModResidue(f)
    && f.insts != [] && total + InstLen(f.insts[0]) <= FlowModLen(f)
    && Head(s, f, length, m) && InstAt(s, 48 + |MatchBytes(m)|, f.insts[0])
    && var behind := 48 + |MatchBytes(m)| + InstLen(f.insts[0]); s[behind..] == was[behind..]
  }

  lemma {:induction false} FirstInstThere(s: seq<byte>, was: seq<byte>, f: FlowMod, length: u16, newLen: nat, total: nat)
    requires MatchDone(s, was, f, length) && f.insts != []
    requires newLen == |MatchBytes(FilterMatch(f.mtch))| && total == Round8(MatchLen(f.mtch))
    ensures InstAt(s, 48 + total, f.insts[0]) && 48 + total + InstLen(f.insts[0]) <= FlowModLen(f) && newLen <= total
    ensures s[48 + newLen + InstLen(f.insts[0])..] == was[48 + newLen + InstLen(f.insts[0])..]
  {
    hide InstsBytes;
    hide OxmsBytes;
    hide MatchBytes;
    hide InstBytes;
    hide FlowModHead;
    hide FlowModBytesWith;
    hide FlowModBytes;
    hide MatchLen;
    var i := f.insts[0];
    FirstInstAt(was, f);
    assert f.insts == [i] + f.insts[1..];
    InstsBytesCons(i, f.insts[1..]);
    SameBehind(s, was, 48 + newLen, 48 + newLen + InstLen(i));
    SameBehind(s, was, 48 + newLen, 48 + total);
    SameBehind(s, was, 48 + total, 48 + total + InstLen(i));
  }

  method MoveFirstInst(msg: array<byte>, newLen: u16, total: u16, ghost was: seq<byte>, ghost f: FlowMod,
                       ghost length: u16)
    requires MatchDone(msg[..], was, f, length) && f.insts != []
    requires newLen == |MatchBytes(FilterMatch(f.mtch))| && total == Round8(MatchLen(f.mtch))
    modifies msg
    ensures InstMoved(msg[..], was, f, length)
  {
    hide InstsBytes;
    hide OxmsBytes;
    hide MatchBytes;
    hide InstBytes;
    hide FlowModHead;
    hide FlowModBytesWith;
    hide MatchLen;
    hide InstLen;
    FirstInstThere(msg[..], was, f, length, newLen, total);
    MoveInst(msg, newLen, total, f, length, FilterMatch(f.mtch), f.insts[0]);
    ghost var moved := InstMoved(msg[..], was, f, length);
    assert moved;
  }

  // The first instruction is filtered.
  ghost predicate InstFiltered(s: seq<byte>, was: seq<byte>, f: FlowMod, next: u16) {
    var m, total := FilterMatch(f.mtch), 48 + Round8(MatchLen(f.mtch));
    && FlowModAt(was, f) && |s| == |was| && WfMatch(m)
    && 48 + |MatchBytes(m)| + FlowModResidue(f) <= total
    && f.insts != [] && total + InstLen(f.insts[0]) <= FlowModLen(f)
    && next + total + InstLen(f.insts[0])
       == FlowModLen(f) + 48 + |MatchBytes(m)| + FlowModResidue(f) + InstLen(FilterInst(f.insts[0]))
    && Head(s, f, next, m) && InstLeft(s, 48 + |MatchBytes(m)|, f.insts[0])
    && var behind := 48 + |MatchBytes(m)| + InstLen(f.insts[0]); s[behind..] == was[behind..]
  }

  lemma {:induction false} FromMoved(s: seq<byte>, moved: seq<byte>, was: seq<byte>, f: FlowMod, length: u16, next: u16,
                                     at: nat)
    requires InstMoved(moved, was, f, length) && |s| == |moved| && at == 48 + |MatchBytes(FilterMatch(f.mtch))|
    requires Head(s, f, next, FilterMatch(f.mtch)) && InstLeft(s, at, f.insts[0])
    requires next + InstLen(f.insts[0]) == length + InstLen(FilterInst(f.insts[0]))
    requires s[at + InstLen(f.insts[0])..] == moved[at + InstLen(f.insts[0])..]
    ensures InstFiltered(s, was, f, next) && s[8..16] == Cookie(f)
  {
    hide InstsBytes;
    hide OxmsBytes;
    hide MatchBytes;
    hide FlowModHead;
    hide FlowModBytesWith;
    hide InstBytes;
    hide LeftBy;
    FixedFields(s, f, next, FilterMatch(f.mtch));
  }

  method FilterFirstInst(msg: array<byte>, fb: array<byte>, pm: PriorityManager, clock: seq<u16>, at: nat,
                         ghost was: seq<byte>, ghost f: FlowMod, ghost length: u16)
    returns (uep: UepMsg, ghost next: u16)
    requires msg != fb && InstMoved(msg[..], was, f, length) && at == 48 + |MatchBytes(FilterMatch(f.mtch))|
    requires InstLen(f.insts[0]) + 10 <= fb.Length && |DroppedFields(f)| == |clock|
    requires pm.Valid() && pm.Ptrs().tail + |clock| + 65536 < TWO_32
    modifies msg, fb, pm, pm.windowBuffer, pm.windowBuffer.buffer
    ensures InstFiltered(msg[..], was, f, next)
    ensures msg[..][8..16] == Cookie(f) && uep == LastUep(DroppedFields(f), clock)
    ensures pm.Valid() && pm.Ptrs() == AdvanceAll(old(pm.Ptrs()), pm.windowSize, clock)
    ensures pm.log == old(pm.log) + ChargesFor(DroppedFields(f), BookedWindows(old(pm.Ptrs()), pm.windowSize, clock))
  {
    hide InstsBytes;
    hide OxmsBytes;
    hide MatchBytes;
    hide FlowModHead;
    hide InstBytes;
    hide FlowModBytesWith;
    hide FilterInst;
    hide LeftBy;
    ghost var kickLen, moved := 0, msg[..];
    kickLen, uep := RewriteInst(msg, fb, pm, clock, at, f, length, FilterMatch(f.mtch), f.insts[0]);
    next := length - kickLen;
    FromMoved(msg[..], moved, was, f, length, next, at);
    ghost var filtered, valid := InstFiltered(msg[..], was, f, next), pm.Valid();
    assert filtered && valid;
  }

  // The lengths the code works with.
  method MatchLengths(msg: array<byte>, ghost f: FlowMod) returns (hasInst: bool, total: u16)
    requires FlowModAt(msg[..], f)
    ensures (hasInst <==> f.insts != []) && total == Round8(MatchLen(f.mtch))
  {
    PartsOf(msg[..], f);
    HeadLengthField(msg[..], f, FlowModLen(f), f.mtch);
    HeadHasMatch(msg[..], f, FlowModLen(f), f.mtch);
    HasInst(f);
    var _, padded := PaddedLength(msg, 48, f.mtch);
    total := padded;
    hasInst := U64(LoadBe16(msg, 2) as int - 48 - total as int) >= 2;
  }

  // The match part, as a stage.
  method DoMatch(msg: array<byte>, fb: array<byte>, total: u16, ghost f: FlowMod)
    returns (newLen: u16, ghost length: u16)
    requires msg != fb && FlowModAt(msg[..], f)
    requires total == Round8(MatchLen(f.mtch)) && total + 10 <= fb.Length
    modifies msg, fb
    ensures MatchDone(msg[..], old(msg[..]), f, length)
    ensures newLen == |MatchBytes(FilterMatch(f.mtch))|
  {
    ghost var was := msg[..];
    newLen, length := RewriteMatch(msg, fb, total, f);
    ghost var done := MatchDone(msg[..], was, f, length);
    assert done;
  }

  /** The whole ADD branch. A message without instructions is left without a queue. */
  method DoAdd(msg: array<byte>, fb: array<byte>, pm: PriorityManager, clock: seq<u16>, ln2: real, ghost f: FlowMod)
    returns (arg: MsgArg, ghost length: u16)
    requires msg != fb && FlowModAt(msg[..], f)
    requires Round8(MatchLen(f.mtch)) + 10 <= fb.Length
    requires f.insts != [] ==> InstLen(f.insts[0]) + 10 <= fb.Length
    requires |DroppedFields(f)| == |clock|
    requires pm.Valid() && pm.Ptrs().tail + |clock| + 65536 < TWO_32
    modifies msg, fb, pm, pm.windowBuffer, pm.windowBuffer.buffer
    ensures pm.Valid() && pm.Ptrs() == AdvanceAll(old(pm.Ptrs()), pm.windowSize, clock)
    ensures pm.log == old(pm.log) + ChargesFor(DroppedFields(f), BookedWindows(old(pm.Ptrs()), pm.windowSize, clock))
    ensures AddDone(msg[..], old(msg[..]), f, length)
    ensures arg == AddArg(f, clock, pm.Slots(), pm.windowSize, ln2)
  {
    hide InstsBytes;
    hide OxmsBytes;
    hide MatchBytes;
    hide FlowModHead;
    hide FlowModBytesWith;
    hide InstBytes;
    hide Kept;
    hide Untagged;
    hide FilterMatch;
    hide SetFields;
    hide Holds;
    hide InstFiltered;
    hide InstMoved;
    hide MatchDone;
    ghost var was := msg[..];
    var hasInst, total := MatchLengths(msg, f);
    var newLen;
    newLen, length := DoMatch(msg, fb, total, f);
    ghost var valid := pm.Valid();
    assert valid;
    if hasInst {
      MoveFirstInst(msg, newLen, total, was, f, length);
      var uep;
      uep, length := FilterFirstInst(msg, fb, pm, clock, 48 + newLen as int, was, f, length);
      var ratio := pm.GetUEPRatioOfSplitK(uep.window, uep.uep);
      arg := MsgArg(Some(if IsDangerous(ratio, ln2) then FLOW_MOD_QUEUE_2_ID else FLOW_MOD_QUEUE_1_ID),
                    Some(msg[..][8..16]), uep.uep, 1);
    } else {
      arg := MsgArg(None, None, Uep(0, 0), 1);
    }
  }

  // The whole of the rewriting, for any number of instructions.
  ghost predicate AddDone(s: seq<byte>, was: seq<byte>, f: FlowMod, length: u16) {
    if f.insts == [] then MatchDone(s, was, f, length) else InstFiltered(s, was, f, length)
  }

  // What is decided about an ADD, from the state of the accounts after its charges.
  ghost function AddArg(f: FlowMod, clock: seq<u16>, slots: seq<Split>, windowSize: u32, ln2: real): (arg: MsgArg)
    requires WfFlowMod(f) && slots != [] && |DroppedFields(f)| <= |clock|
    ensures arg.qid.None? <==> f.insts == []
    ensures arg.qid.Some? ==> arg.qid.value in {1, 7} && arg.identify == Some(f.fixed[4..12]) && arg.wait == 1
    ensures DroppedFields(f) == [] ==> arg.uep == Uep(0, 0)
    ensures DroppedFields(f) != [] ==>
              var b := DroppedFields(f)[|DroppedFields(f)| - 1].body; arg.uep == Uep(b[5], b[4])
  {
    if f.insts == [] then MsgArg(None, None, Uep(0, 0), 1)
    else
      var uep := LastUep(DroppedFields(f), clock);
      var demoted := IsDangerous(SlotRatio(slots, windowSize, uep.window, uep.uep), ln2);
      MsgArg(Some(if demoted then FLOW_MOD_QUEUE_2_ID else FLOW_MOD_QUEUE_1_ID), Some(Cookie(f)), uep.uep, 1)
  }

  /** An ADD is rewritten and charged, any other FLOW_MOD is left alone. */
  method DoFlowModProcessed(msg: array<byte>, fb: array<byte>, pm: PriorityManager, clock: seq<u16>, ln2: real,
                            ghost f: FlowMod)
    returns (arg: MsgArg, ghost length: u16)
    requires msg != fb && FlowModAt(msg[..], f)
    requires Command(f) == ADD ==>
               && Round8(MatchLen(f.mtch)) + 10 <= fb.Length
               && (f.insts != [] ==> InstLen(f.insts[0]) + 10 <= fb.Length)
               && |DroppedFields(f)| == |clock|
    requires pm.Valid() && pm.Ptrs().tail + |clock| + 65536 < TWO_32
    modifies msg, fb, pm, pm.windowBuffer, pm.windowBuffer.buffer
    ensures pm.Valid()
    ensures 26 <= msg.Length && (Command(f) == ADD <==> old(msg[..])[25] == 0)
    ensures Cookie(f) == f.fixed[4..12] == old(msg[..])[8..16]
    ensures Command(f) != ADD ==>
              && msg[..] == old(msg[..]) && pm.log == old(pm.log) && pm.Ptrs() == old(pm.Ptrs())
              && arg == MsgArg(Some(IMPORTANT_QUEUE_ID), Some(Cookie(f)), Uep(0, 0), 1)
    ensures Command(f) == ADD ==>
              && AddDone(msg[..], old(msg[..]), f, length)
              && pm.Ptrs() == AdvanceAll(old(pm.Ptrs()), pm.windowSize, clock)
              && pm.log == old(pm.log) + ChargesFor(DroppedFields(f), BookedWindows(old(pm.Ptrs()), pm.windowSize, clock))
              && arg == AddArg(f, clock, pm.Slots(), pm.windowSize, ln2)
  {
    PartsOf(msg[..], f);
    FixedFields(msg[..], f, FlowModLen(f), f.mtch);
    length := FlowModLen(f);
    if msg[25] != ADD {
      arg := MsgArg(Some(IMPORTANT_QUEUE_ID), Some(msg[..][8..16]), Uep(0, 0), 1);
    } else {
      arg, length := DoAdd(msg, fb, pm, clock, ln2, f);
    }
  }

  // ----- What the rewritten message parses to.

  // A sequence of instructions, and so a message, is a multiple of 8 bytes long.
  lemma {:induction false} InstsAligned(s: seq<byte>)
    requires ParseInsts(s).Some?
    ensures |s| % 8 == 0
    decreases |s|
  {
    hide ParseInst;
    if s != [] {
      var n := Be16(s, 2);
      InstsAligned(s[n..]);
      EightsAdd(n, |s[n..]|);
    }
  }

  lemma {:induction false} MessageAligned(s: seq<byte>)
    requires ParseFlowMod(s).Some?
    ensures |s| % 8 == 0
  {
    hide ParseMatch;
    hide ParseInsts;
    hide Be16;
    var m := Round8(Be16(s, 50));
    InstsAligned(s[48 + m..]);
    EightsAdd(48 + m, |s[48 + m..]|);
  }

  lemma {:induction false} StrayCons(i: Instruction, y: seq<byte>)
    requires ParseInsts(y).None?
    ensures ParseInsts(InstBytes(i) + y) == None
  {
    var x := InstBytes(i);
    var s := x + y;
    assert s[|x|..] == y;
    assert Be16(s, 2) == Be16(x, 2) == Be16(PutBe16(|x|), 0);
  }

  // Where four zeros stand for an instruction, nothing parses.
  lemma {:induction false} ZerosAreNoInst(y: seq<byte>)
    requires 4 <= |y| && y[..4] == Zeros(4)
    ensures ParseInsts(y) == None
  {
    assert y[2] == y[..4][2] && y[3] == y[..4][3];
  }

  lemma {:induction false} TailFails(s: seq<byte>, m: nat)
    requires 48 + m <= |s| && 52 <= |s| && m == Round8(Be16(s, 50)) && ParseInsts(s[48 + m..]).None?
    ensures ParseFlowMod(s) == None
  {
  }

  // The header of a rewritten message, whatever its instructions.
  lemma {:induction false} DoneLength(s: seq<byte>, was: seq<byte>, f: FlowMod, length: u16)
    requires AddDone(s, was, f, length)
    ensures 4 <= |s| && s[1] == FLOW_MOD && Be16(s, 2) == length <= FlowModLen(f) <= |s|
    ensures WfFlowMod(FilterFlowMod(f)) && length == FlowModLen(FilterFlowMod(f)) + FlowModResidue(f)
  {
    hide OxmsBytes;
    hide InstsBytes;
    hide MatchBytes;
    hide LeftBy;
    HeadLengthField(s, f, length, FilterMatch(f.mtch));
    FilterKeepsWf(f);
    if f.insts != [] {
      FilterShrinks(f.insts[0]);
    }
    var n := 48 + |MatchBytes(FilterMatch(f.mtch))|;
    assert s[1] == s[..n][1] == FLOW_MOD;
  }

  /** Of several instructions only the first is moved: the later ones stay where they were,
      so that the new length cuts off as many bytes at their end as were removed before
      them. */
  lemma {:induction false} LaterInstructionsStay(s: seq<byte>, was: seq<byte>, f: FlowMod, length: u16)
    requires AddDone(s, was, f, length) && |f.insts| >= 2
    ensures var m, behind, i := FilterMatch(f.mtch), 48 + Round8(MatchLen(f.mtch)), f.insts[0];
            && behind + InstLen(i) <= FlowModLen(f) <= |s|
            && s[behind + InstLen(i)..FlowModLen(f)] == InstsBytes(f.insts[1..])
            && FlowModLen(f) - length
               == (behind - 48 - |MatchBytes(m)| - FlowModResidue(f)) + (InstLen(i) - InstLen(FilterInst(i)))
    ensures Head(s, f, length, FilterMatch(f.mtch))
    ensures InstAt(s, 48 + |MatchBytes(FilterMatch(f.mtch))|, FilterInst(f.insts[0]))
  {
    hide OxmsBytes;
    hide MatchBytes;
    hide InstBytes;
    hide LeftBy;
    hide InstLeft;
    LeftHasInst(s, 48 + |MatchBytes(FilterMatch(f.mtch))|, f.insts[0]);
    FilterShrinks(f.insts[0]);
    var behind := 48 + Round8(MatchLen(f.mtch)) + InstLen(f.insts[0]);
    FirstInstAt(was, f);
    SameBehind(s, was, 48 + |MatchBytes(FilterMatch(f.mtch))| + InstLen(f.insts[0]), behind);
    SameBehind(s, was, behind, FlowModLen(f));
  }

  // The bytes behind the first instruction are, in the message received, repeated where the
  // code would have to move them to. It does not move them.
  ghost predicate RestThere(was: seq<byte>, f: FlowMod)
    requires FlowModAt(was, f) && f.insts != []
  {
    var n, i := FlowModLen(f), InstLen(f.insts[0]);
    var behind, to := 48 + Round8(MatchLen(f.mtch)) + i, 48 + Round8(MatchLen(FilterMatch(f.mtch))) + i;
    behind <= n && to + (n - behind) <= |was| && was[to..to + (n - behind)] == was[behind..n]
  }

  /** What decides, on the message received, whether the rewriting comes out right: the match
      lengths, and for several instructions that none of the first one's actions go and that
      the later ones happen to be where they should come to stand. */
  ghost predicate Survives(was: seq<byte>, f: FlowMod)
    requires FlowModAt(was, f)
  {
    && (MatchLen(f.mtch) % 8 == 0 || MatchLen(FilterMatch(f.mtch)) % 8 != 0)
    && (|f.insts| <= 1 || (DroppedFields(f) == [] && RestThere(was, f)))
  }

  lemma {:induction false} ParsesIff(t: seq<byte>, g: FlowMod)
    requires WfFlowMod(g) && |t| == FlowModLen(g)
    ensures ParseFlowMod(t) == Some(g) <==> t == FlowModBytes(g)
  {
    hide ParseFlowMod;
    FlowModParseBack(g);
    if ParseFlowMod(t) == Some(g) {
      FlowModPrintBack(t);
    }
  }

  // Header and match are right, so what follows the filtered instruction decides.
  lemma {:induction false} RestDecides(s: seq<byte>, was: seq<byte>, f: FlowMod, length: u16, at: nat, k: nat)
    requires InstFiltered(s, was, f, length) && FlowModResidue(f) == 0
    requires at == 48 + |MatchBytes(FilterMatch(f.mtch))| && k == at + InstLen(FilterInst(f.insts[0]))
    ensures k <= length <= |s| && WfFlowMod(FilterFlowMod(f)) && length == k + |InstsBytes(f.insts[1..])|
    ensures s[..length] == FlowModBytes(FilterFlowMod(f)) <==> s[k..length] == InstsBytes(f.insts[1..])
  {
    hide InstsBytes;
    hide OxmsBytes;
    hide MatchBytes;
    hide InstBytes;
    hide LeftBy;
    hide InstLeft;
    hide FlowModHead;
    hide FilterMatch;
    hide Untagged;
    var out, i := FilterFlowMod(f), FilterInst(f.insts[0]);
    DoneLength(s, was, f, length);
    FilterKeepsWf(f);
    LeftHasInst(s, at, f.insts[0]);
    SameHead(f, length);
    LastDecides(s, FlowModHead(out, length, out.mtch), InstBytes(i), InstsBytes(f.insts[1..]));
  }

  // Of three parts the first two of which are there, the third decides.
  lemma {:induction false} LastDecides(s: seq<byte>, a: seq<byte>, b: seq<byte>, c: seq<byte>)
    requires |a| + |b| + |c| <= |s| && s[..|a|] == a && s[|a|..|a| + |b|] == b
    ensures s[..|a| + |b| + |c|] == a + (b + c) <==> s[|a| + |b|..|a| + |b| + |c|] == c
  {
    var k, n := |a| + |b|, |a| + |b| + |c|;
    JoinSlices(s, 0, |a|, n);
    JoinSlices(s, |a|, k, n);
    if s[..n] == a + (b + c) {
      TwoParts(s, 0, a, b + c);
      TwoParts(s, |a|, b, c);
    }
  }

  // The head does not depend on the instructions.
  lemma {:induction false} SameHead(f: FlowMod, length: u16)
    requires |f.fixed| == 44 && WfMatch(FilterMatch(f.mtch))
    ensures FlowModHead(FilterFlowMod(f), length, FilterMatch(f.mtch)) == FlowModHead(f, length, FilterMatch(f.mtch))
  {
  }

  // Without dropped actions what follows is what was received there.
  lemma {:induction false} RestAsReceived(s: seq<byte>, was: seq<byte>, f: FlowMod, length: u16, k: nat)
    requires InstFiltered(s, was, f, length) && DroppedFields(f) == []
    requires k == 48 + |MatchBytes(FilterMatch(f.mtch))| + InstLen(FilterInst(f.insts[0]))
    requires length == k + |InstsBytes(f.insts[1..])| <= |s|
    ensures s[k..length] == InstsBytes(f.insts[1..]) <==> RestThere(was, f)
  {
    hide InstsBytes;
    hide OxmsBytes;
    hide MatchBytes;
    hide InstBytes;
    hide LeftBy;
    hide InstLeft;
    hide FlowModHead;
    hide FlowModBytes;
    hide FilterMatch;
    hide FilterInst;
    hide MatchLen;
    hide InstLen;
    hide Round8;
    hide SetFields;
    FilterShrinks(f.insts[0]);
    FirstInstAt(was, f);
    FilterKeepsWf(f);
    SameBehind(s, was, k, length);
  }

  // Where four zeros stand behind the first instruction, nothing parses.
  lemma {:induction false} ZerosFail(s: seq<byte>, n: nat, at: nat, i: Instruction)
    requires 52 <= at && at + InstLen(i) + 4 <= n <= |s| && at == 48 + Round8(Be16(s, 50))
    requires InstAt(s, at, i) && s[at + InstLen(i)..at + InstLen(i) + 4] == Zeros(4)
    ensures ParseFlowMod(s[..n]) == None
  {
    hide InstBytes;
    hide ParseFlowMod;
    hide ParseInsts;
    var t, k := s[..n], at + InstLen(i);
    assert t[k..][..4] == s[k..k + 4] && t[at..] == s[at..k] + t[k..];
    ZerosAreNoInst(t[k..]);
    StrayCons(i, t[k..]);
    TailFails(t, at - 48);
  }

  // With dropped actions they stand where the next instruction should start.
  lemma {:induction false} ZerosFollow(s: seq<byte>, was: seq<byte>, f: FlowMod, length: u16)
    requires InstFiltered(s, was, f, length) && |f.insts| >= 2 && DroppedFields(f) != []
    ensures length <= |s| && ParseFlowMod(s[..length]) == None
  {
    hide InstsBytes;
    hide OxmsBytes;
    hide MatchBytes;
    hide InstBytes;
    hide FlowModHead;
    hide FlowModBytes;
    hide ParseFlowMod;
    hide LeftBy;
    hide InstLeft;
    hide Kept;
    hide SetFields;
    hide Untagged;
    hide FilterMatch;
    hide ActionsBytes;
    var at, i := 48 + |MatchBytes(FilterMatch(f.mtch))|, FilterInst(f.insts[0]);
    DoneLength(s, was, f, length);
    FilterKeepsWf(f);
    SecondInst(f);
    LeftHasInst(s, at, f.insts[0]);
    FixedFields(s, f, length, FilterMatch(f.mtch));
    ZerosFail(s, length, at, i);
  }

  lemma {:induction false} SecondInst(f: FlowMod)
    requires |f.insts| >= 2
    ensures |InstsBytes(f.insts[1..])| >= 8
  {
    var rest := f.insts[1..];
    assert InstsBytes(rest) == InstBytes(rest[0]) + InstsBytes(rest[1..]);
  }

  // With a residue the message has a length no message has.
  lemma {:induction false} ResidueFails(t: seq<byte>, g: FlowMod, residue: nat)
    requires WfFlowMod(g) && 0 < residue < 8 && |t| == FlowModLen(g) + residue
    ensures ParseFlowMod(t) == None
  {
    hide ParseFlowMod;
    FlowModParseBack(g);
    MessageAligned(FlowModBytes(g));
    if ParseFlowMod(t).Some? {
      MessageAligned(t);
    }
  }

  /** For every ADD: the first header.length bytes of the rewritten message parse to the
      filtered one exactly if the message received meets Survives. They parse to nothing if
      the header counts the old padding once too often, and if of several instructions the
      first has lost actions. */
  lemma {:induction false} AddKeepsMeaning(s: seq<byte>, was: seq<byte>, f: FlowMod, length: u16)
    requires AddDone(s, was, f, length)
    ensures FlowModAt(was, f) && WfFlowMod(FilterFlowMod(f))
    ensures Be16(s, 2) == length == FlowModLen(FilterFlowMod(f)) + FlowModResidue(f) <= |s|
    ensures ParseFlowMod(s[..length]) == Some(FilterFlowMod(f)) <==> Survives(was, f)
    ensures MatchLen(f.mtch) % 8 != 0 && MatchLen(FilterMatch(f.mtch)) % 8 == 0 ==> ParseFlowMod(s[..length]) == None
    ensures |f.insts| >= 2 && DroppedFields(f) != [] ==> ParseFlowMod(s[..length]) == None
  {
    hide InstsBytes;
    hide OxmsBytes;
    hide MatchBytes;
    hide InstBytes;
    hide FlowModBytes;
    hide FlowModHead;
    hide ParseFlowMod;
    hide LeftBy;
    hide RestThere;
    hide FilterFlowMod;
    DoneLength(s, was, f, length);
    if FlowModResidue(f) > 0 {
      ResidueFails(s[..length], FilterFlowMod(f), FlowModResidue(f));
    } else if f.insts == [] {
      ParsesIff(s[..length], FilterFlowMod(f));
      NoInstructions(s, was, f, length);
    } else if |f.insts| >= 2 && DroppedFields(f) != [] {
      ZerosFollow(s, was, f, length);
    } else {
      OneOrKept(s, was, f, length);
    }
  }

  lemma {:induction false} NoInstructions(s: seq<byte>, was: seq<byte>, f: FlowMod, length: u16)
    requires MatchDone(s, was, f, length) && f.insts == [] && FlowModResidue(f) == 0
    ensures length <= |s| && WfFlowMod(FilterFlowMod(f)) && s[..length] == FlowModBytes(FilterFlowMod(f))
  {
    hide OxmsBytes;
    hide MatchBytes;
    DoneLength(s, was, f, length);
    SameHead(f, length);
  }

  // One instruction, or several of which the first lost nothing.
  lemma {:induction false} OneOrKept(s: seq<byte>, was: seq<byte>, f: FlowMod, length: u16)
    requires InstFiltered(s, was, f, length) && FlowModResidue(f) == 0
    requires |f.insts| == 1 || DroppedFields(f) == []
    ensures length <= |s|
    ensures ParseFlowMod(s[..length]) == Some(FilterFlowMod(f)) <==> |f.insts| == 1 || RestThere(was, f)
  {
    hide InstsBytes;
    hide OxmsBytes;
    hide MatchBytes;
    hide InstBytes;
    hide FlowModBytes;
    hide FlowModHead;
    hide ParseFlowMod;
    hide LeftBy;
    hide RestThere;
    hide FilterFlowMod;
    var at := 48 + |MatchBytes(FilterMatch(f.mtch))|;
    var k := at + InstLen(FilterInst(f.insts[0]));
    DoneLength(s, was, f, length);
    RestDecides(s, was, f, length, at, k);
    ParsesIff(s[..length], FilterFlowMod(f));
    if |f.insts| == 1 {
      NothingBehind(f);
      assert s[k..length] == InstsBytes(f.insts[1..]);
    } else {
      RestAsReceived(s, was, f, length, k);
    }
  }

  lemma {:induction false} NothingBehind(f: FlowMod)
    requires |f.insts| == 1
    ensures InstsBytes(f.insts[1..]) == []
  {
  }

  /** What a rewritten ADD says whenever it parses: header, fixed fields and match type are those
      received, and of the match fields exactly those are gone that have class 0x8000, field byte
      0x36 and a value starting with 0x7F. */
  lemma {:induction false} ParsedMatch(s: seq<byte>, was: seq<byte>, f: FlowMod, length: u16, g: FlowMod, o: Oxm)
    requires AddDone(s, was, f, length) && length <= |s| && ParseFlowMod(s[..length]) == Some(g)
    ensures g.version == f.version && g.fixed == f.fixed && g.mtch.typ == f.mtch.typ
    ensures multiset(g.mtch.oxms)[o]
            == if o.cls == 0x8000 && o.field == 0x36 && o.payload[0] == 0x7F then 0 else multiset(f.mtch.oxms)[o]
  {
    hide InstsBytes;
    hide OxmsBytes;
    hide MatchBytes;
    hide InstBytes;
    hide ParseInsts;
    hide ParseMatch;
    hide LeftBy;
    hide InstLeft;
    hide Untagged;
    var m, t := FilterMatch(f.mtch), s[..length];
    var n := |MatchBytes(m)|;
    DoneLength(s, was, f, length);
    FixedFields(s, f, length, m);
    HeadHasMatch(s, f, length, m);
    assert Be16(t, 50) == Be16(s, 50) && t[48..48 + n] == s[48..48 + n];
    MatchParseBack(m);
    HeadFixed(s, f, length, m);
    assert t[0] == s[0] && t[4..48] == s[4..48];
    UntaggedSplits(f.mtch.oxms, o);
  }

  lemma {:induction false} HeadFixed(s: seq<byte>, f: FlowMod, length: u16, m: Match)
    requires Head(s, f, length, m)
    ensures s[0] == f.version && s[4..48] == f.fixed
  {
    hide OxmsBytes;
    MiddleOf(s, 0, 48 + |MatchBytes(m)|, [f.version, FLOW_MOD] + PutBe16(length), f.fixed, MatchBytes(m));
    assert s[0] == s[..48 + |MatchBytes(m)|][0];
  }

  /** And where it was rewritten correctly: the instructions are those received, but an
      instruction of type 4 that came first has lost exactly its actions of type 25. */
  lemma {:induction false} ParsedInstructions(s: seq<byte>, was: seq<byte>, f: FlowMod, length: u16, g: FlowMod, a: Action)
    requires AddDone(s, was, f, length) && length <= |s| && ParseFlowMod(s[..length]) == Some(g)
    requires Survives(was, f) && f.insts != []
    ensures |g.insts| == |f.insts| && g.insts[1..] == f.insts[1..]
    ensures var i, j := f.insts[0], g.insts[0];
            if InstBytes(i)[..2] != [0, 4] then j == i && DroppedFields(f) == []
            else && i.Apply? && j.Apply? && j.pad == i.pad && DroppedFields(f) == SetFields(i.acts)
                 && multiset(j.acts)[a] == if a.typ == 25 then 0 else multiset(i.acts)[a]
  {
    hide AddDone;
    hide Survives;
    hide ParseFlowMod;
    hide InstBytes;
    AddKeepsMeaning(s, was, f, length);
    FilterIsByBytes(f.insts[0], a);
  }

  /** What the rewriting asks of a received message is exactly that it parses. */
  lemma {:induction false} ParsedIsAt(s: seq<byte>, f: FlowMod)
    ensures FlowModAt(s, f) <==> 4 <= |s| && Be16(s, 2) <= |s| && ParseFlowMod(s[..Be16(s, 2)]) == Some(f)
  {
    hide ParseFlowMod;
    hide InstsBytes;
    hide MatchBytes;
    if FlowModAt(s, f) {
      PartsOf(s, f);
      HeadLengthField(s, f, FlowModLen(f), f.mtch);
      FlowModParseBack(f);
    } else if 4 <= |s| && Be16(s, 2) <= |s| && ParseFlowMod(s[..Be16(s, 2)]) == Some(f) {
      FlowModPrintBack(s[..Be16(s, 2)]);
    }
  }

  /** A message that went through the rewriting once is left as it is the second time, length
      included. */
  lemma {:induction false} FilterIsStable(f: FlowMod)
    ensures FilterFlowMod(FilterFlowMod(f)) == FilterFlowMod(f)
    ensures FlowModResidue(FilterFlowMod(f)) == 0 && DroppedFields(FilterFlowMod(f)) == []
    ensures forall was | FlowModAt(was, FilterFlowMod(f)) :: Survives(was, FilterFlowMod(f))
  {
    hide FlowModAt;
    hide Survives;
    var g := FilterFlowMod(f);
    UntaggedIsIdempotent(f.mtch.oxms);
    if f.insts != [] {
      if f.insts[0].Apply? {
        FilterIsIdempotent(f.insts[0].acts);
      }
      assert g.insts[1..] == f.insts[1..];
    }
    forall was | FlowModAt(was, g)
      ensures Survives(was, g)
    {
      StableSurvives(was, g);
    }
  }

  lemma {:induction false} StableSurvives(was: seq<byte>, g: FlowMod)
    requires FlowModAt(was, g) && FilterMatch(g.mtch) == g.mtch && DroppedFields(g) == []
    ensures Survives(was, g)
  {
    hide InstsBytes;
    hide OxmsBytes;
    hide MatchBytes;
    hide FlowModBytes;
    if g.insts != [] {
      FilterKeepsWf(g);
    }
  }

  // ----- Messages that do not survive.

  // The match of 21 bytes loses its five-byte tagged field.
  lemma {:induction false} ShrinkingMatch() returns (m: Match)
    ensures WfMatch(m) && MatchLen(m) == 21 && MatchLen(FilterMatch(m)) == 16
  {
    var a: Oxm, b: Oxm := Oxm(TAG_CLASS, TAG_FIELD, [TAG_VALUE]), Oxm(TAG_CLASS, 6, Zeros(8));
    m := Match(1, [a, b]);
    assert Untagged([b]) == [b] by {
      assert [b][1..] == [];
    }
    assert Untagged([a, b]) == [b] by {
      assert [a, b][1..] == [b];
    }
    MatchFilter.BytesOfOne(b);
    assert OxmsBytes([a, b]) == OxmBytes(a) + OxmsBytes([b]) by {
      assert [a, b][1..] == [b];
    }
  }

  /** The residue is real: an ADD with one GOTO_TABLE instruction that never parses again. */
  lemma {:induction false} ResidueHappens() returns (f: FlowMod)
    ensures WfFlowMod(f) && Command(f) == ADD && |f.insts| == 1 && FlowModResidue(f) == 3
    ensures forall s, was, length: u16 | AddDone(s, was, f, length) :: length <= |s| && ParseFlowMod(s[..length]) == None
  {
    hide AddDone;
    hide ParseFlowMod;
    var m := ShrinkingMatch();
    var i: Instruction := Other(1, Zeros(4));
    f := FlowMod(4, Zeros(44), m, [i]);
    InstsBytesCons(i, []);
    assert [i] + [] == [i];
    forall s, was, length: u16 | AddDone(s, was, f, length)
      ensures length <= |s| && ParseFlowMod(s[..length]) == None
    {
      AddKeepsMeaning(s, was, f, length);
    }
  }

  /** So is the loss of a second instruction: an ADD with an empty match, an APPLY_ACTIONS
      instruction of one SET_FIELD action and a GOTO_TABLE instruction. */
  lemma {:induction false} SecondInstructionLost() returns (f: FlowMod)
    ensures WfFlowMod(f) && Command(f) == ADD && |f.insts| == 2 && FlowModResidue(f) == 0
    ensures forall s, was, length: u16 | AddDone(s, was, f, length) :: length <= |s| && ParseFlowMod(s[..length]) == None
  {
    hide AddDone;
    hide ParseFlowMod;
    var a: Action := Action(SET_FIELD, Zeros(12));
    ActionFilter.BytesOfOne(a);
    assert SetFields([a]) == [a] by {
      assert [a][1..] == [];
    }
    var i: Instruction, j: Instruction := Apply(Zeros(4), [a]), Other(1, Zeros(4));
    f := FlowMod(4, Zeros(44), Match(1, []), [i, j]);
    InstsBytesCons(j, []);
    InstsBytesCons(i, [j]);
    assert [j] + [] == [j] && [i] + [j] == [i, j];
    forall s, was, length: u16 | AddDone(s, was, f, length)
      ensures length <= |s| && ParseFlowMod(s[..length]) == None
    {
      AddKeepsMeaning(s, was, f, length);
    }
  }
}
