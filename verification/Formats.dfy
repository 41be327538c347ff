/** The OpenFlow 1.3 structures the rewriters take apart: abstract values, their byte form
    and a strict parser for each. Section numbers are those of the OpenFlow Switch
    Specification 1.3. */
module Formats {
  import opened Bytes

  const SET_FIELD: u16 := 25
  const APPLY_ACTIONS: u16 := 4
  const FLOW_MOD: byte := 14
  const PACKET_OUT: byte := 13

  // ----- Actions (section 7.2.5): type, length, body; the length counts all of it.

  datatype AnyAction = Action(typ: u16, body: seq<byte>)

  // A SET_FIELD action carries one OXM with a nonempty payload, so it is at least 16 long.
  predicate WfAction(a: AnyAction) {
    && (4 + |a.body|) % 8 == 0
    && 8 <= 4 + |a.body| < 65536
    && (a.typ == SET_FIELD ==> 12 <= |a.body|)
  }

  type Action = a: AnyAction | WfAction(a) witness Action(0, [0, 0, 0, 0])

  function ActionBytes(a: Action): seq<byte>
  {
    PutBe16(a.typ) + PutBe16(4 + |a.body|) + a.body
  }

  function ActionsBytes(acts: seq<Action>): seq<byte>
  {
    if acts == [] then [] else ActionBytes(acts[0]) + ActionsBytes(acts[1..])
  }

  function ParseActions(s: seq<byte>): (r: Option<seq<Action>>)
    decreases |s|
  {
    if s == [] then Some([])
    else if |s| < 8 then None
    else
      var n := Be16(s, 2);
      if n < 8 || n % 8 != 0 || |s| < n then None
      else
        var a := Action(Be16(s, 0), s[4..n]);
        if !WfAction(a) then None
        else
          var rest := ParseActions(s[n..]);
          if rest.None? then None else Some([a] + rest.value)
  }

  lemma {:induction false} ActionsParseCons(a: Action, y: seq<byte>)
    requires ParseActions(y).Some?
    ensures ParseActions(ActionBytes(a) + y) == Some([a] + ParseActions(y).value)
  {
    var x := ActionBytes(a);
    var s := x + y;
    assert s[4..|x|] == a.body && s[|x|..] == y;
    assert Be16(s, 0) == Be16(PutBe16(a.typ), 0) && Be16(s, 2) == Be16(PutBe16(|x|), 0);
  }

  lemma {:induction false} ActionsParseBack(acts: seq<Action>)
    ensures ParseActions(ActionsBytes(acts)) == Some(acts)
  {
    if acts != [] {
      ActionsParseBack(acts[1..]);
      ActionsParseCons(acts[0], ActionsBytes(acts[1..]));
      assert [acts[0]] + acts[1..] == acts;
    }
  }

  // One turn of a walk over an action list: the first action, and the list behind it.
  lemma {:induction false} FirstAction(s: seq<byte>) returns (n: nat, a: Action, rest: seq<Action>)
    requires ParseActions(s).Some? && s != []
    ensures 8 <= |s| && n == Be16(s, 2) && 8 <= n <= |s| && a == Action(Be16(s, 0), s[4..n])
    ensures ActionBytes(a) == s[..n]
    ensures ParseActions(s[n..]) == Some(rest) && ParseActions(s).value == [a] + rest
  {
    n := Be16(s, 2);
    a := Action(Be16(s, 0), s[4..n]);
    rest := ParseActions(s[n..]).value;
    ActionBytesAt(s, n);
  }

  lemma {:induction false} ActionBytesAt(s: seq<byte>, n: nat)
    requires 8 <= |s| && n == Be16(s, 2) && 8 <= n <= |s| && WfAction(Action(Be16(s, 0), s[4..n]))
    ensures ActionBytes(Action(Be16(s, 0), s[4..n])) == s[..n]
  {
    PutOfBe16(s, 0);
    PutOfBe16(s, 2);
    assert s[..n] == s[0..2] + s[2..4] + s[4..n];
  }

  lemma {:induction false} ActionsPrintBack(s: seq<byte>)
    requires ParseActions(s).Some?
    ensures ActionsBytes(ParseActions(s).value) == s
    decreases |s|
  {
    if s != [] {
      var n, a, rest := FirstAction(s);
      ActionsPrintBack(s[n..]);
      assert s[..n] + s[n..] == s;
    }
  }

  lemma {:induction false} ActionsBytesAppend(a: seq<Action>, b: seq<Action>)
    ensures ActionsBytes(a + b) == ActionsBytes(a) + ActionsBytes(b)
  {
    if a == [] {
      assert a + b == b;
    } else {
      ActionsBytesAppend(a[1..], b);
      assert (a + b)[0] == a[0] && (a + b)[1..] == a[1..] + b;
      Assoc(ActionBytes(a[0]), ActionsBytes(a[1..]), ActionsBytes(b));
    }
  }

  // ----- OXM match fields (section 7.2.3.2): class, field and mask bit, payload length,
  // payload. A payload is at least one byte.

  datatype AnyOxm = Oxm(cls: u16, field: byte, payload: seq<byte>)

  predicate WfOxm(o: AnyOxm) {
    1 <= |o.payload| < 256
  }

  type Oxm = o: AnyOxm | WfOxm(o) witness Oxm(0, 0, [0])

  function OxmBytes(o: Oxm): seq<byte>
  {
    PutBe16(o.cls) + [o.field, |o.payload|] + o.payload
  }

  function OxmsBytes(os: seq<Oxm>): seq<byte>
  {
    if os == [] then [] else OxmBytes(os[0]) + OxmsBytes(os[1..])
  }

  function ParseOxms(s: seq<byte>): (r: Option<seq<Oxm>>)
    decreases |s|
  {
    if s == [] then Some([])
    else if |s| < 4 then None
    else
      var n := 4 + s[3] as int;
      if s[3] == 0 || |s| < n then None
      else
        var rest := ParseOxms(s[n..]);
        if rest.None? then None else Some([Oxm(Be16(s, 0), s[2], s[4..n])] + rest.value)
  }

  lemma {:induction false} OxmsParseCons(o: Oxm, y: seq<byte>)
    requires ParseOxms(y).Some?
    ensures ParseOxms(OxmBytes(o) + y) == Some([o] + ParseOxms(y).value)
  {
    var x := OxmBytes(o);
    var s := x + y;
    assert s[4..|x|] == o.payload && s[|x|..] == y;
    assert Be16(s, 0) == Be16(PutBe16(o.cls), 0);
  }

  lemma {:induction false} OxmsParseBack(os: seq<Oxm>)
    ensures ParseOxms(OxmsBytes(os)) == Some(os)
  {
    if os != [] {
      OxmsParseBack(os[1..]);
      OxmsParseCons(os[0], OxmsBytes(os[1..]));
      assert [os[0]] + os[1..] == os;
    }
  }

  lemma {:induction false} FirstOxm(s: seq<byte>) returns (n: nat, o: Oxm, rest: seq<Oxm>)
    requires ParseOxms(s).Some? && s != []
    ensures 4 <= |s| && n == 4 + s[3] as int && 5 <= n <= |s| && o == Oxm(Be16(s, 0), s[2], s[4..n])
    ensures OxmBytes(o) == s[..n]
    ensures ParseOxms(s[n..]) == Some(rest) && ParseOxms(s).value == [o] + rest
  {
    n := 4 + s[3] as int;
    o := Oxm(Be16(s, 0), s[2], s[4..n]);
    rest := ParseOxms(s[n..]).value;
    OxmBytesAt(s, n);
  }

  lemma {:induction false} OxmBytesAt(s: seq<byte>, n: nat)
    requires 4 <= |s| && n == 4 + s[3] as int && 5 <= n <= |s|
    ensures OxmBytes(Oxm(Be16(s, 0), s[2], s[4..n])) == s[..n]
  {
    PutOfBe16(s, 0);
    assert s[..n] == s[0..2] + [s[2], s[3]] + s[4..n];
  }

  lemma {:induction false} OxmsPrintBack(s: seq<byte>)
    requires ParseOxms(s).Some?
    ensures OxmsBytes(ParseOxms(s).value) == s
    decreases |s|
  {
    if s != [] {
      var n, o, rest := FirstOxm(s);
      OxmsPrintBack(s[n..]);
      assert s[..n] + s[n..] == s;
    }
  }

  lemma {:induction false} OxmsBytesAppend(a: seq<Oxm>, b: seq<Oxm>)
    ensures OxmsBytes(a + b) == OxmsBytes(a) + OxmsBytes(b)
  {
    if a == [] {
      assert a + b == b;
    } else {
      OxmsBytesAppend(a[1..], b);
      assert (a + b)[0] == a[0] && (a + b)[1..] == a[1..] + b;
      Assoc(OxmBytes(a[0]), OxmsBytes(a[1..]), OxmsBytes(b));
    }
  }

  // ----- The match (section 7.2.3.1): type, length without padding, fields, zero padding.

  datatype Match = Match(typ: u16, oxms: seq<Oxm>)

  function MatchLen(m: Match): nat
  {
    4 + |OxmsBytes(m.oxms)|
  }

  predicate WfMatch(m: Match) {
    Round8(MatchLen(m)) < 65536
  }

  function MatchBytes(m: Match): (r: seq<byte>)
    requires WfMatch(m)
    ensures |r| == Round8(MatchLen(m))
  {
    PutBe16(m.typ) + PutBe16(MatchLen(m)) + OxmsBytes(m.oxms) + Zeros(Pad8(MatchLen(m)))
  }

  function ParseMatch(s: seq<byte>): (r: Option<Match>)
  {
    if |s| < 8 || 65536 <= |s| then None
    else
      var n := Be16(s, 2);
      if n < 4 || |s| != Round8(n) || s[n..] != Zeros(Pad8(n)) then None
      else
        var os := ParseOxms(s[4..n]);
        if os.None? then None else Some(Match(Be16(s, 0), os.value))
  }

  lemma {:induction false} MatchParseBack(m: Match)
    requires WfMatch(m)
    ensures ParseMatch(MatchBytes(m)) == Some(m)
  {
    var s, n := MatchBytes(m), MatchLen(m);
    var os := OxmsBytes(m.oxms);
    assert s == PutBe16(m.typ) + PutBe16(n) + os + Zeros(Pad8(n));
    assert s[4..n] == os && s[n..] == Zeros(Pad8(n));
    assert Be16(s, 0) == Be16(PutBe16(m.typ), 0) && Be16(s, 2) == Be16(PutBe16(n), 0);
    OxmsParseBack(m.oxms);
  }

  lemma {:induction false} MatchPrintBack(s: seq<byte>)
    requires ParseMatch(s).Some?
    ensures WfMatch(ParseMatch(s).value) && MatchBytes(ParseMatch(s).value) == s
    ensures MatchLen(ParseMatch(s).value) == Be16(s, 2)
  {
    var n := Be16(s, 2);
    OxmsPrintBack(s[4..n]);
    MatchPieces(s, n);
  }

  lemma {:induction false} MatchPieces(s: seq<byte>, n: nat)
    requires 4 <= n <= |s| && Be16(s, 2) == n
    ensures PutBe16(Be16(s, 0)) + PutBe16(n) + s[4..n] + s[n..] == s
  {
    hide Be16;
    hide PutBe16;
    PutOfBe16(s, 0);
    PutOfBe16(s, 2);
    assert s == s[0..2] + s[2..4] + s[4..n] + s[n..];
  }

  // ----- Instructions (section 7.2.4): type, length, then for APPLY_ACTIONS four bytes of
  // padding and an action list, for every other type a body the proxy does not look into.

  datatype AnyInstruction =
    | Apply(pad: seq<byte>, acts: seq<Action>)
    | Other(typ: u16, body: seq<byte>)

  function InstLen(i: AnyInstruction): nat
  {
    match i
    case Apply(_, acts) => 8 + |ActionsBytes(acts)|
    case Other(_, body) => 4 + |body|
  }

  predicate WfInst(i: AnyInstruction) {
    && (i.Apply? ==> |i.pad| == 4)
    && (i.Other? ==> i.typ != APPLY_ACTIONS)
    && InstLen(i) % 8 == 0
    && 8 <= InstLen(i) < 65536
  }

  type Instruction = i: AnyInstruction | WfInst(i) witness Other(0, [0, 0, 0, 0])

  function InstBytes(i: Instruction): (r: seq<byte>)
    ensures |r| == InstLen(i)
  {
    match i
    case Apply(pad, acts) => PutBe16(APPLY_ACTIONS) + PutBe16(InstLen(i)) + pad + ActionsBytes(acts)
    case Other(typ, body) => PutBe16(typ) + PutBe16(InstLen(i)) + body
  }

  // An APPLY_ACTIONS instruction of n bytes.
  function ApplyOf(pad: seq<byte>, acts: seq<Action>, n: nat): Instruction
    requires |pad| == 4 && 8 <= n < 65536 && n % 8 == 0 && 8 + |ActionsBytes(acts)| == n
  {
    Apply(pad, acts)
  }

  // The first instruction of s, where n is its whole length.
  function ParseInst(s: seq<byte>, n: nat): (r: Option<Instruction>)
    requires 8 <= n <= |s| && n < 65536 && n % 8 == 0
  {
    if Be16(s, 0) != APPLY_ACTIONS then Some(Other(Be16(s, 0), s[4..n]))
    else
      var acts := ParseActions(s[8..n]);
      if acts.None? then None
      else
        ActionsPrintBack(s[8..n]);
        Some(ApplyOf(s[4..8], acts.value, n))
  }

  function InstsBytes(insts: seq<Instruction>): seq<byte>
  {
    if insts == [] then [] else InstBytes(insts[0]) + InstsBytes(insts[1..])
  }

  function ParseInsts(s: seq<byte>): (r: Option<seq<Instruction>>)
    decreases |s|
  {
    if s == [] then Some([])
    else if |s| < 8 then None
    else
      var n := Be16(s, 2);
      if n < 8 || n % 8 != 0 || |s| < n then None
      else
        var i, rest := ParseInst(s, n), ParseInsts(s[n..]);
        if i.None? || rest.None? then None else Some([i.value] + rest.value)
  }

  lemma {:induction false} InstParseBack(i: Instruction, tail: seq<byte>)
    ensures ParseInst(InstBytes(i) + tail, InstLen(i)) == Some(i)
  {
    var s, n := InstBytes(i) + tail, InstLen(i);
    match i
    case Apply(pad, acts) =>
      assert s[4..8] == pad && s[8..n] == ActionsBytes(acts);
      assert Be16(s, 0) == Be16(PutBe16(APPLY_ACTIONS), 0);
      ActionsParseBack(acts);
    case Other(typ, body) =>
      assert Be16(s, 0) == Be16(PutBe16(typ), 0);
      assert s[4..n] == body;
  }

  lemma {:induction false} InstPieces(s: seq<byte>, n: nat)
    requires 8 <= n <= |s| && n < 65536 && n == Be16(s, 2)
    ensures PutBe16(Be16(s, 0)) + PutBe16(n) + s[4..n] == s[..n]
    ensures PutBe16(Be16(s, 0)) + PutBe16(n) + s[4..8] + s[8..n] == s[..n]
  {
    PutOfBe16(s, 0);
    PutOfBe16(s, 2);
    assert s[..n] == s[0..2] + s[2..4] + s[4..n];
    assert s[4..n] == s[4..8] + s[8..n];
  }

  lemma {:induction false} InstPrintBack(s: seq<byte>, n: nat)
    requires 8 <= n <= |s| && n < 65536 && n % 8 == 0 && n == Be16(s, 2)
    requires ParseInst(s, n).Some?
    ensures InstBytes(ParseInst(s, n).value) == s[..n]
  {
    hide ParseActions;
    hide ActionsBytes;
    hide Be16;
    hide PutBe16;
    InstPieces(s, n);
    if Be16(s, 0) == APPLY_ACTIONS {
      ActionsPrintBack(s[8..n]);
    }
  }

  lemma {:induction false} InstsParseCons(i: Instruction, y: seq<byte>)
    requires ParseInsts(y).Some?
    ensures ParseInsts(InstBytes(i) + y) == Some([i] + ParseInsts(y).value)
  {
    var x := InstBytes(i);
    var s := x + y;
    InstParseBack(i, y);
    assert s[|x|..] == y;
    assert Be16(s, 2) == Be16(x, 2) == Be16(PutBe16(|x|), 0);
  }

  lemma {:induction false} InstsParseBack(insts: seq<Instruction>)
    ensures ParseInsts(InstsBytes(insts)) == Some(insts)
  {
    if insts != [] {
      InstsParseBack(insts[1..]);
      InstsParseCons(insts[0], InstsBytes(insts[1..]));
      assert [insts[0]] + insts[1..] == insts;
    }
  }

  lemma {:induction false} FirstInst(s: seq<byte>) returns (n: nat, i: Instruction, rest: seq<Instruction>)
    requires ParseInsts(s).Some? && s != []
    ensures 8 <= |s| && n == Be16(s, 2) && 8 <= n <= |s| && n % 8 == 0
    ensures ParseInst(s, n) == Some(i) && InstBytes(i) == s[..n]
    ensures ParseInsts(s[n..]) == Some(rest) && ParseInsts(s).value == [i] + rest
  {
    n := Be16(s, 2);
    i := ParseInst(s, n).value;
    rest := ParseInsts(s[n..]).value;
    InstPrintBack(s, n);
  }

  lemma {:induction false} InstsBytesCons(i: Instruction, rest: seq<Instruction>)
    ensures InstsBytes([i] + rest) == InstBytes(i) + InstsBytes(rest)
  {
    assert ([i] + rest)[1..] == rest;
  }

  lemma {:induction false} InstsPrintBack(s: seq<byte>)
    requires ParseInsts(s).Some?
    ensures InstsBytes(ParseInsts(s).value) == s
    decreases |s|
  {
    if s != [] {
      var n, i, rest := FirstInst(s);
      InstsPrintBack(s[n..]);
      InstsBytesCons(i, rest);
      SplitAt(s, n);
    }
  }

  lemma {:induction false} SplitAt(s: seq<byte>, n: nat)
    requires n <= |s|
    ensures s[..n] + s[n..] == s
  {
  }

  // ----- FLOW_MOD (section 7.3.4.1): version, type, length, then 44 bytes from the
  // transaction id to the padding before the match, the match and the instructions.

  datatype FlowMod = FlowMod(version: byte, fixed: seq<byte>, mtch: Match, insts: seq<Instruction>)

  function FlowModLen(f: FlowMod): nat
    requires WfMatch(f.mtch)
  {
    48 + Round8(MatchLen(f.mtch)) + |InstsBytes(f.insts)|
  }

  predicate WfFlowMod(f: FlowMod) {
    && |f.fixed| == 44 && WfMatch(f.mtch)
    && FlowModLen(f) < 65536
  }

  // Everything before the instructions, with a given length in the header and a given match.
  function FlowModHead(f: FlowMod, length: u16, m: Match): (r: seq<byte>)
    requires |f.fixed| == 44 && WfMatch(m)
    ensures |r| == 48 + Round8(MatchLen(m))
  {
    [f.version, FLOW_MOD] + PutBe16(length) + f.fixed + MatchBytes(m)
  }

  // The message with a given value in the length field of its header.
  function FlowModBytesWith(f: FlowMod, length: u16): (r: seq<byte>)
    requires WfFlowMod(f)
    ensures |r| == FlowModLen(f)
  {
    FlowModHead(f, length, f.mtch) + InstsBytes(f.insts)
  }

  function FlowModBytes(f: FlowMod): seq<byte>
    requires WfFlowMod(f)
  {
    FlowModBytesWith(f, FlowModLen(f))
  }

  function ParseFlowMod(s: seq<byte>): (r: Option<FlowMod>) {
    if |s| < 56 || 65536 <= |s| || s[1] != FLOW_MOD || Be16(s, 2) != |s| then None
    else
      var m := Round8(Be16(s, 50));
      if |s| < 48 + m then None
      else
        var mtch, insts := ParseMatch(s[48..48 + m]), ParseInsts(s[48 + m..]);
        if mtch.None? || insts.None? then None
        else Some(FlowMod(s[0], s[4..48], mtch.value, insts.value))
  }

  lemma {:induction false} FlowModParseBack(f: FlowMod)
    requires WfFlowMod(f)
    ensures ParseFlowMod(FlowModBytes(f)) == Some(f)
  {
    FlowModSlices(f.version, FlowModLen(f), f.fixed, MatchBytes(f.mtch), InstsBytes(f.insts));
    MatchParseBack(f.mtch);
    MatchLenField(f.mtch);
    InstsParseBack(f.insts);
  }

  lemma {:induction false} MatchLenField(m: Match)
    requires WfMatch(m)
    ensures Be16(MatchBytes(m), 2) == MatchLen(m)
  {
    assert Be16(MatchBytes(m), 2) == Be16(PutBe16(MatchLen(m)), 0);
  }

  // Where the parts of a message laid out as FlowModBytesWith does are found again.
  lemma {:induction false} FlowModSlices(version: byte, length: u16, fixed: seq<byte>, m: seq<byte>, insts: seq<byte>)
    requires |fixed| == 44 && 8 <= |m|
    ensures var s := [version, FLOW_MOD] + PutBe16(length) + fixed + m + insts;
            && s[0] == version && s[1] == FLOW_MOD && Be16(s, 2) == length && s[4..48] == fixed
            && s[48..48 + |m|] == m && s[48 + |m|..] == insts && Be16(s, 50) == Be16(m, 2)
  {
    var s := [version, FLOW_MOD] + PutBe16(length) + fixed + m + insts;
    assert Be16(s, 2) == Be16(PutBe16(length), 0);
    assert s[48..48 + |m|] == m;
    assert s[50] == m[2] && s[51] == m[3];
  }

  lemma {:induction false} FlowModPrintBack(s: seq<byte>)
    requires ParseFlowMod(s).Some?
    ensures WfFlowMod(ParseFlowMod(s).value) && FlowModBytes(ParseFlowMod(s).value) == s
  {
    hide ParseMatch;
    hide ParseInsts;
    hide MatchBytes;
    hide InstsBytes;
    var m := Round8(Be16(s, 50));
    MatchPrintBack(s[48..48 + m]);
    assert Be16(s[48..48 + m], 2) == Be16(s, 50);
    InstsPrintBack(s[48 + m..]);
    FlowModPieces(s, m);
  }

  lemma {:induction false} FlowModPieces(s: seq<byte>, m: nat)
    requires 48 + m <= |s| < 65536 && Be16(s, 2) == |s|
    ensures [s[0], s[1]] + PutBe16(|s|) + s[4..48] + s[48..48 + m] + s[48 + m..] == s
  {
    hide Be16;
    hide PutBe16;
    PutOfBe16(s, 2);
    assert s == s[..2] + s[2..4] + s[4..48] + s[48..48 + m] + s[48 + m..];
  }

  // ----- PACKET_OUT (section 7.3.7): version, type, length, 12 bytes up to the length of
  // the action list, that length, six bytes of padding, the actions, the frame.

  datatype PacketOut = PacketOut(version: byte, fixed: seq<byte>, pad: seq<byte>, acts: seq<Action>, frame: seq<byte>)

  function PacketOutLen(p: PacketOut): nat
  {
    24 + |ActionsBytes(p.acts)| + |p.frame|
  }

  predicate WfPacketOut(p: PacketOut) {
    && |p.fixed| == 12 && |p.pad| == 6
    && PacketOutLen(p) < 65536
  }

  function PacketOutBytes(p: PacketOut): (r: seq<byte>)
    requires WfPacketOut(p)
    ensures |r| == PacketOutLen(p)
  {
    [p.version, PACKET_OUT] + PutBe16(PacketOutLen(p)) + p.fixed + PutBe16(|ActionsBytes(p.acts)|) + p.pad
    + ActionsBytes(p.acts) + p.frame
  }

  function ParsePacketOut(s: seq<byte>): (r: Option<PacketOut>) {
    if |s| < 24 || 65536 <= |s| || s[1] != PACKET_OUT || Be16(s, 2) != |s| then None
    else
      var n := Be16(s, 16);
      if |s| < 24 + n then None
      else
        var acts := ParseActions(s[24..24 + n]);
        if acts.None? then None
        else Some(PacketOut(s[0], s[4..16], s[18..24], acts.value, s[24 + n..]))
  }

  lemma {:induction false} PacketOutParseBack(p: PacketOut)
    requires WfPacketOut(p)
    ensures ParsePacketOut(PacketOutBytes(p)) == Some(p)
  {
    var s, b := PacketOutBytes(p), ActionsBytes(p.acts);
    assert s[4..16] == p.fixed && s[18..24] == p.pad && s[24..24 + |b|] == b && s[24 + |b|..] == p.frame;
    assert Be16(s, 16) == |b|;
    ActionsParseBack(p.acts);
  }

  lemma {:induction false} PacketOutPrintBack(s: seq<byte>)
    requires ParsePacketOut(s).Some?
    ensures WfPacketOut(ParsePacketOut(s).value) && PacketOutBytes(ParsePacketOut(s).value) == s
  {
    var n := Be16(s, 16);
    ActionsPrintBack(s[24..24 + n]);
    PacketOutPieces(s, n);
  }

  lemma {:induction false} PacketOutPieces(s: seq<byte>, n: nat)
    requires 24 + n <= |s| < 65536 && Be16(s, 2) == |s| && Be16(s, 16) == n
    ensures [s[0], s[1]] + PutBe16(|s|) + s[4..16] + PutBe16(n) + s[18..24] + s[24..24 + n] + s[24 + n..] == s
  {
    hide Be16;
    hide PutBe16;
    PutOfBe16(s, 2);
    PutOfBe16(s, 16);
    assert s == s[..2] + s[2..4] + s[4..16] + s[16..18] + s[18..24] + s[24..24 + n] + s[24 + n..];
  }
}
