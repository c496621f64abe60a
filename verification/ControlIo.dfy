/**
 * The text records in which the control service stores its node list and its
 * configuration (server/control/src/control_io.cpp): what is read back from what
 * was written, and exactly when that is the same.
 */
module ControlIo {
  import opened Decimals
  import opened Options
  import opened Widths

  const FS: char := 31 as char
  const FIELDS := 9

  /** Roles and states are kept as their numbers; the heartbeat is in nanoseconds. */
  datatype NodeInfo = NodeInfo(
    id: uint32, role: uint8, addr: string, capacity: uint32, load: uint32, players: uint32,
    tickP99: uint32, status: uint8, heartbeat: int64)

  // ----- splitting -----

  /** Where c first occurs in s at or after `from`; the length of s if it does not. */
  function IndexOf(s: string, c: char, from: nat): (i: nat)
    requires from <= |s|
    ensures from <= i <= |s| && (i < |s| ==> s[i] == c)
    ensures forall k :: from <= k < i ==> s[k] != c
    decreases |s| - from
  {
    if from == |s| || s[from] == c then from else IndexOf(s, c, from + 1)
  }

  lemma {:induction false} IndexOfIs(s: string, c: char, from: nat, i: nat)
    requires from <= i <= |s| && (i < |s| ==> s[i] == c) && (forall k :: from <= k < i ==> s[k] != c)
    ensures IndexOf(s, c, from) == i
    decreases i - from
  {
    if from < i {
      IndexOfIs(s, c, from + 1, i);
    }
  }

  /** The pieces of s between the separators. */
  function Pieces(s: string, sep: char): (ps: seq<string>)
    ensures |ps| > 0
    decreases |s|
  {
    var i := IndexOf(s, sep, 0);
    if i == |s| then [s] else [s[..i]] + Pieces(s[i + 1..], sep)
  }

  /** The pieces with the separator between them. */
  function Joined(ps: seq<string>, sep: char): string {
    if |ps| == 0 then "" else if |ps| == 1 then ps[0] else ps[0] + [sep] + Joined(ps[1..], sep)
  }

  predicate Free(s: string, sep: char) {
    forall i :: 0 <= i < |s| ==> s[i] != sep
  }

  /** Splitting gives pieces that are free of the separator and join to the text again. */
  lemma {:induction false} PiecesJoin(s: string, sep: char)
    ensures Joined(Pieces(s, sep), sep) == s
    ensures forall p :: p in Pieces(s, sep) ==> Free(p, sep)
    decreases |s|
  {
    var i := IndexOf(s, sep, 0);
    if i < |s| {
      PiecesJoin(s[i + 1..], sep);
      assert Pieces(s, sep)[1..] == Pieces(s[i + 1..], sep);
      assert s == s[..i] + [sep] + s[i + 1..];
    }
  }

  /** Pieces that are free of the separator are what joining and splitting gives. */
  lemma {:induction false} JoinedPieces(ps: seq<string>, sep: char)
    requires |ps| > 0 && forall p :: p in ps ==> Free(p, sep)
    ensures Pieces(Joined(ps, sep), sep) == ps
  {
    assert Free(ps[0], sep);
    var s := Joined(ps, sep);
    IndexOfIs(s, sep, 0, |ps[0]|);
    if |ps| == 1 {
      assert ps == [ps[0]];
    } else {
      assert s[..|ps[0]|] == ps[0] && s[|ps[0]| + 1..] == Joined(ps[1..], sep);
      JoinedPieces(ps[1..], sep);
      assert ps == [ps[0]] + ps[1..];
    }
  }

  method Find(s: string, c: char, from: nat) returns (i: nat)
    requires from <= |s|
    ensures i == IndexOf(s, c, from)
  {
    i := from;
    while i < |s| && s[i] != c
      invariant from <= i <= |s| && IndexOf(s, c, i) == IndexOf(s, c, from)
    {
      i := i + 1;
    }
  }

  /** The next piece, in the terms of a scan of the whole text. */
  lemma NextPiece(s: string, sep: char, pos: nat)
    requires pos <= |s|
    ensures var found := IndexOf(s, sep, pos);
            Pieces(s[pos..], sep) == if found == |s| then [s[pos..]] else [s[pos..found]] + Pieces(s[found + 1..], sep)
  {
    hide IndexOf, Pieces;
    var found := IndexOf(s, sep, pos);
    ScanFrom(s, sep, pos);
    FirstPiece(s[pos..], sep);
    if found < |s| {
      DropTwice(s, pos, found);
    }
  }

  lemma ScanFrom(s: string, sep: char, pos: nat)
    requires pos <= |s|
    ensures IndexOf(s[pos..], sep, 0) == IndexOf(s, sep, pos) - pos
  {
    hide IndexOf;
    IndexOfIs(s[pos..], sep, 0, IndexOf(s, sep, pos) - pos);
  }

  lemma FirstPiece(t: string, sep: char)
    ensures var i := IndexOf(t, sep, 0);
            Pieces(t, sep) == if i == |t| then [t] else [t[..i]] + Pieces(t[i + 1..], sep)
  {
    hide IndexOf;
  }

  lemma DropTwice(s: string, pos: nat, found: nat)
    requires pos <= found < |s|
    ensures s[pos..][..found - pos] == s[pos..found] && s[pos..][found - pos + 1..] == s[found + 1..]
  {
  }

  method Split(s: string, sep: char) returns (out: seq<string>)
    ensures out == Pieces(s, sep)
  {
    hide Pieces, IndexOf;
    out := [];
    var pos := 0;
    assert s[0..] == s;
    while pos <= |s|
      invariant 0 <= pos <= |s| && out + Pieces(s[pos..], sep) == Pieces(s, sep)
      decreases |s| - pos
    {
      var found := Find(s, sep, pos);
      NextPiece(s, sep, pos);
      if found == |s| {
        out := out + [s[pos..]];
        break;
      }
      assert out + ([s[pos..found]] + Pieces(s[found + 1..], sep))
             == out + [s[pos..found]] + Pieces(s[found + 1..], sep);
      out := out + [s[pos..found]];
      pos := found + 1;
    }
  }

  // ----- numbers -----

  /** A whole field as an unsigned number below the bound: digits only, at least one. */
  function Unsigned(s: string, bound: nat): (n: Option<nat>)
    ensures n.Some? ==> n.value < bound
  {
    if |s| > 0 && AllDigits(s) && DigitsValue(s) < bound then Some(DigitsValue(s)) else None
  }

  /** A whole field as a signed 64-bit number: a minus sign may come first. */
  function Signed(s: string): Option<int64> {
    var negative := |s| > 0 && s[0] == '-';
    match Unsigned(if negative then s[1..] else s, 0x8000_0000_0000_0000 + if negative then 1 else 0)
    case None => None
    case Some(n) =>
      Some(if negative then -(n as int) else n as int)
  }

  /** The text of an integer. */
  function IntText(n: int): (s: string)
    ensures |s| > 0
  {
    if n < 0 then "-" + Decimal(-n) else Decimal(n)
  }

  predicate Numeric(s: string) {
    forall i :: 0 <= i < |s| ==> IsDigit(s[i]) || s[i] == '-'
  }

  lemma NumbersRoundTrip(n: int)
    ensures Numeric(IntText(n)) && Free(IntText(n), FS) && Free(IntText(n), '\n')
    ensures forall bound: nat :: 0 <= n < bound ==> Unsigned(IntText(n), bound) == Some(n)
    ensures -0x8000_0000_0000_0000 <= n < 0x8000_0000_0000_0000 ==> Signed(IntText(n)) == Some(n)
  {
    var size := if n < 0 then -n else n;
    DecimalRoundTrip(size);
    assert ("-" + Decimal(size))[1..] == Decimal(size);
    assert n >= 0 ==> IsDigit(IntText(n)[0]);
  }

  // ----- node records -----

  function NodeFields(n: NodeInfo): (fs: seq<string>)
    ensures |fs| == FIELDS
  {
    [IntText(n.id), IntText(n.role), n.addr, IntText(n.capacity), IntText(n.load), IntText(n.players),
     IntText(n.tickP99), IntText(n.status), IntText(n.heartbeat)]
  }

  function NodeLine(n: NodeInfo): string {
    Joined(NodeFields(n), FS)
  }

  function NodeLines(nodes: seq<NodeInfo>): (lines: seq<string>)
    ensures |lines| == |nodes| && forall i :: 0 <= i < |nodes| ==> lines[i] == NodeLine(nodes[i])
  {
    seq(|nodes|, i requires 0 <= i < |nodes| => NodeLine(nodes[i]))
  }

  /** What is written for a list of nodes. */
  function NodesText(nodes: seq<NodeInfo>): string {
    Joined(NodeLines(nodes), '\n')
  }

  /** The node a record describes. */
  function ReadNode(line: string): Option<NodeInfo> {
    var f := Pieces(line, FS);
    if |f| != FIELDS then None else
    var id := Unsigned(f[0], 0x1_0000_0000);
    var role := Unsigned(f[1], 0x100);
    var capacity := Unsigned(f[3], 0x1_0000_0000);
    var load := Unsigned(f[4], 0x1_0000_0000);
    var players := Unsigned(f[5], 0x1_0000_0000);
    var p99 := Unsigned(f[6], 0x1_0000_0000);
    var status := Unsigned(f[7], 0x100);
    var heartbeat := Signed(f[8]);
    if id == None || role == None || capacity == None || load == None || players == None || p99 == None
       || status == None || heartbeat == None
    then None
    else Some(NodeInfo(id.value, role.value, f[2], capacity.value, load.value, players.value, p99.value,
                       status.value, heartbeat.value))
  }

  /** The nodes of the non-empty lines; one bad line spoils all. */
  function ReadLines(lines: seq<string>): Option<seq<NodeInfo>> {
    if |lines| == 0 then Some([])
    else if |lines[0]| == 0 then ReadLines(lines[1..])
    else match ReadNode(lines[0])
      case None => None
      case Some(node) => Before([node], ReadLines(lines[1..]))
  }

  function Before(nodes: seq<NodeInfo>, more: Option<seq<NodeInfo>>): Option<seq<NodeInfo>> {
    match more
    case None => None
    case Some(ns) => Some(nodes + ns)
  }

  // What a record and a text have to hold.

  /** Is this the number in decimal digits, leading zeros allowed? */
  predicate Spells(s: string, n: nat) {
    |s| > 0 && AllDigits(s) && DigitsValue(s) == n
  }

  predicate SpellsSigned(s: string, n: int) {
    (n >= 0 && Spells(s, n)) || (|s| > 0 && s[0] == '-' && n <= 0 && Spells(s[1..], -n))
  }

  /** The nine fields of a record, in their order. */
  predicate IsRecord(f: seq<string>, n: NodeInfo) {
    && |f| == 9
    && Spells(f[0], n.id) && Spells(f[1], n.role) && f[2] == n.addr && Spells(f[3], n.capacity) && Spells(f[4], n.load)
    && Spells(f[5], n.players) && Spells(f[6], n.tickP99) && Spells(f[7], n.status) && SpellsSigned(f[8], n.heartbeat)
  }

  lemma UnsignedIff(s: string, bound: nat, n: nat)
    requires n < bound
    ensures Unsigned(s, bound) == Some(n) <==> Spells(s, n)
  {
  }

  lemma SignedIff(s: string, n: int64)
    ensures Signed(s) == Some(n) <==> SpellsSigned(s, n)
  {
  }

  /** A record is read as a node exactly if its fields spell the node. */
  lemma RecordIff(line: string, n: NodeInfo)
    ensures ReadNode(line) == Some(n) <==> IsRecord(Pieces(line, FS), n)
  {
    hide Unsigned, Signed, Spells, SpellsSigned, Pieces;
    var f := Pieces(line, FS);
    if |f| == 9 {
      UnsignedIff(f[0], 0x1_0000_0000, n.id);
      UnsignedIff(f[1], 0x100, n.role);
      UnsignedIff(f[3], 0x1_0000_0000, n.capacity);
      UnsignedIff(f[4], 0x1_0000_0000, n.load);
      UnsignedIff(f[5], 0x1_0000_0000, n.players);
      UnsignedIff(f[6], 0x1_0000_0000, n.tickP99);
      UnsignedIff(f[7], 0x100, n.status);
      SignedIff(f[8], n.heartbeat);
    }
  }

  /** The lines that are not empty. */
  function Filled(lines: seq<string>): (filled: seq<string>)
    ensures forall l :: l in filled <==> l in lines && |l| > 0
  {
    if |lines| == 0 then [] else (if |lines[0]| == 0 then [] else [lines[0]]) + Filled(lines[1..])
  }

  predicate AreRecords(lines: seq<string>, nodes: seq<NodeInfo>) {
    |lines| == |nodes| && forall i :: 0 <= i < |lines| ==> IsRecord(Pieces(lines[i], FS), nodes[i])
  }

  /** Lines are read as nodes exactly if those that are not empty spell the nodes, one by one. */
  lemma {:induction false} LinesIff(lines: seq<string>, nodes: seq<NodeInfo>)
    ensures ReadLines(lines) == Some(nodes) <==> AreRecords(Filled(lines), nodes)
  {
    hide ReadNode, IsRecord, Pieces, Before;
    if |lines| == 0 {
    } else if |lines[0]| == 0 {
      assert [] + Filled(lines[1..]) == Filled(lines[1..]);
      LinesIff(lines[1..], nodes);
    } else {
      assert Filled(lines)[0] == lines[0] && Filled(lines)[1..] == Filled(lines[1..]);
      hide AreRecords;
      FirstRecord(Filled(lines), nodes);
      if ReadNode(lines[0]).Some? {
        BeforeIff(ReadNode(lines[0]).value, ReadLines(lines[1..]), nodes);
      }
      if |nodes| > 0 {
        RecordIff(lines[0], nodes[0]);
        LinesIff(lines[1..], nodes[1..]);
      }
    }
  }

  lemma BeforeIff(node: NodeInfo, more: Option<seq<NodeInfo>>, nodes: seq<NodeInfo>)
    ensures Before([node], more) == Some(nodes) <==> |nodes| > 0 && nodes[0] == node && more == Some(nodes[1..])
  {
    if |nodes| > 0 {
      assert nodes == [nodes[0]] + nodes[1..];
    }
    if more.Some? {
      assert ([node] + more.value)[1..] == more.value;
    }
  }

  lemma FirstRecord(lines: seq<string>, nodes: seq<NodeInfo>)
    requires |lines| > 0
    ensures AreRecords(lines, nodes) <==>
              |nodes| > 0 && IsRecord(Pieces(lines[0], FS), nodes[0]) && AreRecords(lines[1..], nodes[1..])
  {
    hide IsRecord, Pieces;
    if |nodes| > 0 && AreRecords(lines[1..], nodes[1..]) {
      assert forall i :: 0 < i < |lines| ==> lines[i] == lines[1..][i - 1] && nodes[i] == nodes[1..][i - 1];
    }
  }

  /** The text of a record: its fields in their order. */
  lemma LineIs(n: NodeInfo)
    ensures NodeLine(n) == IntText(n.id) + [FS] + IntText(n.role) + [FS] + n.addr + [FS] + IntText(n.capacity) + [FS]
                           + IntText(n.load) + [FS] + IntText(n.players) + [FS] + IntText(n.tickP99) + [FS]
                           + IntText(n.status) + [FS] + IntText(n.heartbeat)
  {
    hide IntText, Joined;
    NineFields(NodeFields(n), "");
    assert "" + IntText(n.id) == IntText(n.id) && "" + Joined(NodeFields(n), FS) == Joined(NodeFields(n), FS);
  }

  /** The node list a text stands for. */
  function ReadNodes(text: string): Option<seq<NodeInfo>> {
    ReadLines(Pieces(text, '\n'))
  }

  predicate CleanAddr(n: NodeInfo) {
    Free(n.addr, FS) && Free(n.addr, '\n')
  }

  lemma FieldsAreFree(n: NodeInfo, sep: char)
    requires (sep == FS || sep == '\n') && Free(n.addr, sep)
    ensures forall f :: f in NodeFields(n) ==> Free(f, sep)
  {
    hide IntText;
    NumbersRoundTrip(n.id);
    NumbersRoundTrip(n.role);
    NumbersRoundTrip(n.capacity);
    NumbersRoundTrip(n.load);
    NumbersRoundTrip(n.players);
    NumbersRoundTrip(n.tickP99);
    NumbersRoundTrip(n.status);
    NumbersRoundTrip(n.heartbeat);
  }

  lemma {:induction false} JoinedIsFree(ps: seq<string>, sep: char, other: char)
    requires sep != other && forall p :: p in ps ==> Free(p, other)
    ensures Free(Joined(ps, sep), other)
  {
    if |ps| == 0 {
    } else {
      assert Free(ps[0], other);
      JoinedIsFree(ps[1..], sep, other);
    }
  }

  /** One node is read back from its record, unless its address holds the field separator. */
  lemma NodeRoundTrip(n: NodeInfo)
    requires Free(n.addr, FS)
    ensures |NodeLine(n)| > 0 && ReadNode(NodeLine(n)) == Some(n)
  {
    hide IntText, Joined, Pieces, Unsigned, Signed;
    FieldsAreFree(n, FS);
    JoinedPieces(NodeFields(n), FS);
    PiecesOfNothing();
    NumbersRoundTrip(n.id);
    NumbersRoundTrip(n.role);
    NumbersRoundTrip(n.capacity);
    NumbersRoundTrip(n.load);
    NumbersRoundTrip(n.players);
    NumbersRoundTrip(n.tickP99);
    NumbersRoundTrip(n.status);
    NumbersRoundTrip(n.heartbeat);
  }

  lemma PiecesOfNothing()
    ensures Pieces("", FS) == [""]
  {
  }

  lemma {:induction false} LinesRoundTrip(nodes: seq<NodeInfo>)
    requires forall n :: n in nodes ==> Free(n.addr, FS)
    ensures ReadLines(NodeLines(nodes)) == Some(nodes)
  {
    hide NodeLine, ReadNode;
    if |nodes| == 0 {
    } else {
      NodeRoundTrip(nodes[0]);
      LinesRoundTrip(nodes[1..]);
      assert NodeLines(nodes)[1..] == NodeLines(nodes[1..]);
      assert nodes == [nodes[0]] + nodes[1..];
    }
  }

  /** Whatever is read, its addresses hold neither separator. */
  lemma {:induction false} ReadIsClean(lines: seq<string>)
    requires forall l :: l in lines ==> Free(l, '\n')
    ensures ReadLines(lines).Some? ==> forall n :: n in ReadLines(lines).value ==> CleanAddr(n)
  {
    hide Unsigned, Signed;
    if |lines| == 0 {
    } else {
      ReadIsClean(lines[1..]);
      if |lines[0]| > 0 && ReadNode(lines[0]).Some? {
        var f := Pieces(lines[0], FS);
        PiecesJoin(lines[0], FS);
        assert f[2] in f;
        PieceIsFree(f, FS, '\n', 2);
      }
    }
  }

  lemma {:induction false} PieceIsFree(ps: seq<string>, sep: char, other: char, k: nat)
    requires k < |ps| && Free(Joined(ps, sep), other)
    ensures Free(ps[k], other)
  {
    var s := Joined(ps, sep);
    if |ps| > 1 {
      assert forall i :: 0 <= i < |ps[0]| ==> ps[0][i] == s[i];
      if k > 0 {
        assert s[|ps[0]| + 1..] == Joined(ps[1..], sep);
        PieceIsFree(ps[1..], sep, other, k - 1);
      }
    }
  }

  /** A node list is read back as it was written exactly if no address holds a separator. */
  lemma NodesRoundTripIffClean(nodes: seq<NodeInfo>)
    ensures ReadNodes(NodesText(nodes)) == Some(nodes) <==> forall n :: n in nodes ==> CleanAddr(n)
  {
    hide NodeLine, ReadNode, Pieces, Joined;
    var text := NodesText(nodes);
    if forall n :: n in nodes ==> CleanAddr(n) {
      LinesRoundTrip(nodes);
      if |nodes| == 0 {
        EmptyText();
      } else {
        forall l | l in NodeLines(nodes) ensures Free(l, '\n') {
          var i :| 0 <= i < |nodes| && l == NodeLine(nodes[i]);
          LineIsFree(nodes[i]);
        }
        JoinedPieces(NodeLines(nodes), '\n');
      }
    }
    PiecesJoin(text, '\n');
    ReadIsClean(Pieces(text, '\n'));
  }

  lemma EmptyText()
    ensures ReadNodes(Joined([], '\n')) == Some([])
  {
    assert Pieces("", '\n') == [""];
  }

  lemma LineIsFree(n: NodeInfo)
    requires CleanAddr(n)
    ensures Free(NodeLine(n), '\n')
  {
    FieldsAreFree(n, '\n');
    JoinedIsFree(NodeFields(n), FS, '\n');
  }

  /** A node list that is not read back: an address that holds a line break. */
  lemma LineBreakIsLost(n: NodeInfo)
    requires n.addr == "\n"
    ensures ReadNodes(NodesText([n])) != Some([n])
  {
    hide ReadNodes, NodesText;
    NodesRoundTripIffClean([n]);
    assert n in [n] && n.addr[0] == '\n';
  }

  method SerializeNodes(nodes: seq<NodeInfo>) returns (out: string)
    ensures out == NodesText(nodes)
  {
    hide NodeLine;
    out := "";
    for i := 0 to |nodes|
      invariant out == NodesText(nodes[..i])
      invariant i > 0 ==> |out| > 0
    {
      var sofar := out;
      if |out| > 0 {
        out := out + ['\n'];
      }
      out := AppendNode(out, nodes[i]);
      assert nodes[..i + 1] == nodes[..i] + [nodes[i]];
      assert NodeLines(nodes[..i + 1]) == NodeLines(nodes[..i]) + [NodeLine(nodes[i])];
      JoinedMore(NodeLines(nodes[..i]), NodeLine(nodes[i]), '\n');
    }
    assert nodes[..|nodes|] == nodes;
  }

  lemma {:induction false} JoinedMore(ps: seq<string>, p: string, sep: char)
    ensures Joined(ps + [p], sep) == if |ps| == 0 then p else Joined(ps, sep) + [sep] + p
  {
    var all := ps + [p];
    if |ps| == 0 {
    } else {
      assert all[1..] == ps[1..] + [p];
      JoinedMore(ps[1..], p, sep);
      if |ps| > 1 {
        assert ps[0] + [sep] + (Joined(ps[1..], sep) + [sep] + p) == ps[0] + [sep] + Joined(ps[1..], sep) + [sep] + p;
      }
    }
  }

  method AppendNode(out: string, n: NodeInfo) returns (r: string)
    ensures r == out + NodeLine(n) && |r| > 0
  {
    hide IntText;
    r := out;
    r := r + IntText(n.id);
    r := r + [FS];
    r := r + IntText(n.role);
    r := r + [FS];
    r := r + n.addr;
    r := r + [FS];
    r := r + IntText(n.capacity);
    r := r + [FS];
    r := r + IntText(n.load);
    r := r + [FS];
    r := r + IntText(n.players);
    r := r + [FS];
    r := r + IntText(n.tickP99);
    r := r + [FS];
    r := r + IntText(n.status);
    r := r + [FS];
    r := r + IntText(n.heartbeat);
    NineFields(NodeFields(n), out);
  }

  lemma NineFields(f: seq<string>, out: string)
    requires |f| == 9
    ensures out + f[0] + [FS] + f[1] + [FS] + f[2] + [FS] + f[3] + [FS] + f[4] + [FS] + f[5] + [FS] + f[6] + [FS]
            + f[7] + [FS] + f[8] == out + Joined(f, FS)
  {
    assert f[..9] == f;
    TakeMore(f, 0, out);
    TakeMore(f, 1, out);
    TakeMore(f, 2, out);
    TakeMore(f, 3, out);
    TakeMore(f, 4, out);
    TakeMore(f, 5, out);
    TakeMore(f, 6, out);
    TakeMore(f, 7, out);
    TakeMore(f, 8, out);
  }

  lemma TakeMore(f: seq<string>, k: nat, out: string)
    requires k < |f|
    ensures out + Joined(f[..k + 1], FS) == if k == 0 then out + f[0] else out + Joined(f[..k], FS) + [FS] + f[k]
  {
    assert f[..k + 1] == f[..k] + [f[k]];
    JoinedMore(f[..k], f[k], FS);
    if k > 0 {
      assert out + (Joined(f[..k], FS) + [FS] + f[k]) == out + Joined(f[..k], FS) + [FS] + f[k];
    }
  }

  lemma NodesIff(text: string)
    ensures forall ns :: ReadNodes(text) == Some(ns) <==> AreRecords(Filled(Pieces(text, '\n')), ns)
  {
    hide AreRecords, Filled, Pieces, ReadLines;
    forall ns ensures ReadNodes(text) == Some(ns) <==> AreRecords(Filled(Pieces(text, '\n')), ns) {
      LinesIff(Pieces(text, '\n'), ns);
    }
  }

  method DeserializeNodes(text: string) returns (out: Option<seq<NodeInfo>>)
    ensures out == ReadNodes(text)
    ensures forall ns :: out == Some(ns) <==> AreRecords(Filled(Pieces(text, '\n')), ns)
  {
    NodesIff(text);
    hide ReadNode, Pieces, IndexOf, AreRecords, Filled;
    var nodes: seq<NodeInfo> := [];
    var pos := 0;
    var total := |text|;
    assert text[0..] == text;
    BeforeAll(ReadNodes(text));
    while pos < total
      invariant 0 <= pos <= total
      invariant Before(nodes, ReadLines(Pieces(text[pos..], '\n'))) == ReadNodes(text)
      decreases total - pos
    {
      var eol := Find(text, '\n', pos);
      NextPiece(text, '\n', pos);
      var rec := if eol == total then text[pos..] else text[pos..eol];
      NextLine(rec, text, eol);
      pos := if eol == total then total else eol + 1;
      if |rec| == 0 {
        continue;
      }
      var node := ReadRecord(rec);
      if node == None {
        return None;
      }
      BeforeTwice(nodes, [node.value], ReadLines(Pieces(text[pos..], '\n')));
      nodes := nodes + [node.value];
    }
    assert text[total..] == "";
    LastLine();
    assert nodes + [] == nodes;
    return Some(nodes);
  }

  /** Reading the line in front of the others, the rest of the text taken as lines in both cases. */
  lemma NextLine(rec: string, text: string, eol: nat)
    requires eol <= |text|
    ensures var rest := text[if eol == |text| then eol else eol + 1..];
            var lines := if eol == |text| then [rec] else [rec] + Pieces(rest, '\n');
            ReadLines(lines) == if |rec| == 0 then ReadLines(Pieces(rest, '\n'))
                                else if ReadNode(rec) == None then None
                                else Before([ReadNode(rec).value], ReadLines(Pieces(rest, '\n')))
  {
    hide ReadNode, Pieces;
    LastLine();
    if eol == |text| {
      assert text[eol..] == "";
      assert [rec][1..] == [];
    } else {
      assert ([rec] + Pieces(text[eol + 1..], '\n'))[1..] == Pieces(text[eol + 1..], '\n');
    }
  }

  lemma LastLine()
    ensures ReadLines(Pieces("", '\n')) == Some([]) && ReadLines([]) == Some([])
  {
    assert Pieces("", '\n') == [""];
  }

  lemma BeforeAll(more: Option<seq<NodeInfo>>)
    ensures Before([], more) == more
  {
    if more.Some? {
      assert [] + more.value == more.value;
    }
  }

  lemma BeforeTwice(a: seq<NodeInfo>, b: seq<NodeInfo>, more: Option<seq<NodeInfo>>)
    ensures Before(a, Before(b, more)) == Before(a + b, more)
  {
    if more.Some? {
      assert a + (b + more.value) == a + b + more.value;
    }
  }

  /** One record; inline in the source's DeserializeNodes. */
  method ReadRecord(rec: string) returns (node: Option<NodeInfo>)
    ensures node == ReadNode(rec)
    ensures forall n :: node == Some(n) <==> IsRecord(Pieces(rec, FS), n)
  {
    forall n ensures ReadNode(rec) == Some(n) <==> IsRecord(Pieces(rec, FS), n) {
      RecordIff(rec, n);
    }
    hide IsRecord;
    hide Unsigned, Signed;
    var f := Split(rec, FS);
    if |f| != FIELDS {
      return None;
    }
    var id := Unsigned(f[0], 0x1_0000_0000);
    if id == None {
      return None;
    }
    var role := ParseUint8(f[1]);
    if role == None {
      return None;
    }
    var capacity := Unsigned(f[3], 0x1_0000_0000);
    if capacity == None {
      return None;
    }
    var load := Unsigned(f[4], 0x1_0000_0000);
    if load == None {
      return None;
    }
    var players := Unsigned(f[5], 0x1_0000_0000);
    if players == None {
      return None;
    }
    var p99 := Unsigned(f[6], 0x1_0000_0000);
    if p99 == None {
      return None;
    }
    var status := ParseUint8(f[7]);
    if status == None {
      return None;
    }
    var heartbeat := Signed(f[8]);
    if heartbeat == None {
      return None;
    }
    return Some(NodeInfo(id.value, role.value, f[2], capacity.value, load.value, players.value, p99.value,
                         status.value, heartbeat.value));
  }

  /** A 32-bit number that must also fit in eight bits. */
  method ParseUint8(s: string) returns (n: Option<nat>)
    ensures n == Unsigned(s, 0x100)
  {
    var r := Unsigned(s, 0x1_0000_0000);
    if r == None || r.value > 255 {
      return None;
    }
    return r;
  }

  // ----- configuration -----

  function ConfigText(version: uint64, snapshot: string): string {
    IntText(version) + [FS] + IntText(|snapshot|) + [FS] + snapshot
  }

  /** The version and snapshot a text holds: two numbers, then exactly as many characters as the second says. */
  function ReadConfig(text: string): Option<(uint64, string)> {
    var p1 := IndexOf(text, FS, 0);
    if p1 == |text| then None else
    var p2 := IndexOf(text, FS, p1 + 1);
    if p2 == |text| then None else
    var version := Unsigned(text[..p1], 0x1_0000_0000_0000_0000);
    var length := Unsigned(text[p1 + 1..p2], 0x1_0000_0000_0000_0000);
    if version == None || length == None || |text| != p2 + 1 + length.value then None
    else Some((version.value, text[p2 + 1..]))
  }

  /** Any snapshot is read back, separators and all. */
  lemma ConfigRoundTrip(version: uint64, snapshot: string)
    requires |snapshot| < 0x1_0000_0000_0000_0000
    ensures ReadConfig(ConfigText(version, snapshot)) == Some((version, snapshot))
  {
    hide IntText, Unsigned;
    var v, l := IntText(version), IntText(|snapshot|);
    NumbersRoundTrip(version);
    NumbersRoundTrip(|snapshot|);
    var text := ConfigText(version, snapshot);
    var p1, p2 := |v|, |v| + 1 + |l|;
    assert forall k :: p1 + 1 <= k < p2 ==> text[k] == l[k - p1 - 1];
    IndexOfIs(text, FS, 0, p1);
    IndexOfIs(text, FS, p1 + 1, p2);
    assert text[..p1] == v && text[p1 + 1..p2] == l && text[p2 + 1..] == snapshot;
  }

  predicate IsConfig(text: string, v: string, l: string, version: uint64, snapshot: string) {
    text == v + [FS] + l + [FS] + snapshot
    && Unsigned(v, 0x1_0000_0000_0000_0000) == Some(version)
    && Unsigned(l, 0x1_0000_0000_0000_0000) == Some(|snapshot|)
  }

  /** Only a text of that form is read: a version, the length of the snapshot, the snapshot. */
  lemma ConfigIsExact(text: string) returns (v: string, l: string)
    requires ReadConfig(text).Some?
    ensures IsConfig(text, v, l, ReadConfig(text).value.0, ReadConfig(text).value.1)
  {
    hide Unsigned, IndexOf;
    var p1 := IndexOf(text, FS, 0);
    var p2 := IndexOf(text, FS, p1 + 1);
    v, l := text[..p1], text[p1 + 1..p2];
    assert text == v + [FS] + l + [FS] + text[p2 + 1..];
  }

  /** Version, length and a snapshot of that length, nothing else. */
  ghost predicate IsConfigText(text: string, version: uint64, snapshot: string) {
    exists v: string, l: string ::
      text == v + [FS] + l + [FS] + snapshot && Spells(v, version) && Spells(l, |snapshot|)
  }

  lemma DigitsAreFree(s: string)
    requires AllDigits(s)
    ensures Free(s, FS)
  {
  }

  lemma RunStands(before: string, run: string, after: string, text: string)
    requires text == before + run + ([FS] + after) && Free(run, FS)
    ensures |text| == |before| + |run| + 1 + |after| && IndexOf(text, FS, |before|) == |before| + |run|
    ensures text[|before|..|before| + |run|] == run && text[|before| + |run| + 1..] == after
  {
    hide IndexOf;
    var e := |before| + |run|;
    assert text[e] == FS;
    forall k | |before| <= k < e ensures text[k] != FS {
      assert text[k] == run[k - |before|];
    }
    IndexOfIs(text, FS, |before|, e);
  }

  lemma Regroup(v: string, l: string, snapshot: string)
    ensures v + [FS] + l + [FS] + snapshot == "" + v + ([FS] + (l + [FS] + snapshot))
    ensures v + [FS] + l + [FS] + snapshot == (v + [FS]) + l + ([FS] + snapshot)
  {
  }

  /** Where the separators of such a text are. */
  lemma ConfigStands(v: string, l: string, snapshot: string, text: string)
    requires text == v + [FS] + l + [FS] + snapshot && AllDigits(v) && AllDigits(l)
    ensures IndexOf(text, FS, 0) == |v| && IndexOf(text, FS, |v| + 1) == |v| + 1 + |l| < |text|
    ensures text[..|v|] == v && text[|v| + 1..|v| + 1 + |l|] == l && text[|v| + 1 + |l| + 1..] == snapshot
  {
    DigitsAreFree(v);
    DigitsAreFree(l);
    hide AllDigits, Free, IndexOf;
    Regroup(v, l, snapshot);
    RunStands("", v, l + [FS] + snapshot, text);
    RunStands(v + [FS], l, snapshot, text);
  }

  /** A configuration is read exactly from the texts that spell it. */
  lemma ConfigIff(text: string, version: uint64, snapshot: string)
    requires |text| < 0x1_0000_0000_0000_0000
    ensures ReadConfig(text) == Some((version, snapshot)) <==> IsConfigText(text, version, snapshot)
  {
    hide DigitsValue, AllDigits, IndexOf, ReadConfig;
    if v: string, l: string :| text == v + [FS] + l + [FS] + snapshot && Spells(v, version) && Spells(l, |snapshot|) {
      ConfigIsRead(text, v, l, version, snapshot);
    }
    if ReadConfig(text) == Some((version, snapshot)) {
      var v, l := ConfigIsExact(text);
    }
  }

  lemma ConfigIsRead(text: string, v: string, l: string, version: uint64, snapshot: string)
    requires |text| < 0x1_0000_0000_0000_0000
    requires text == v + [FS] + l + [FS] + snapshot && Spells(v, version) && Spells(l, |snapshot|)
    ensures ReadConfig(text) == Some((version, snapshot))
  {
    ConfigStands(v, l, snapshot, text);
    UnsignedIff(v, 0x1_0000_0000_0000_0000, version);
    UnsignedIff(l, 0x1_0000_0000_0000_0000, |snapshot|);
    hide IndexOf, Unsigned, Spells;
  }

  lemma ConfigsIff(text: string)
    requires |text| < 0x1_0000_0000_0000_0000
    ensures forall v, snapshot :: ReadConfig(text) == Some((v, snapshot)) <==> IsConfigText(text, v, snapshot)
  {
    hide ReadConfig, IsConfigText;
    forall v, snapshot ensures ReadConfig(text) == Some((v, snapshot)) <==> IsConfigText(text, v, snapshot) {
      ConfigIff(text, v, snapshot);
    }
  }

  method SerializeConfig(version: uint64, snapshot: string) returns (out: string)
    ensures out == ConfigText(version, snapshot)
  {
    out := IntText(version);
    out := out + [FS];
    out := out + IntText(|snapshot|);
    out := out + [FS];
    out := out + snapshot;
  }

  /** The source adds body and length in 64 bits; a wrapped sum cannot be the size of the text. */
  /** A sum of 64-bit numbers. */
  function Wrapped(n: nat): uint64 {
    n % 0x1_0000_0000_0000_0000
  }

  /** A sum that wraps around cannot be the length of a text that is as long as its first part. */
  lemma WrappedSumIff(body: nat, length: uint64, total: nat)
    requires body <= total < 0x1_0000_0000_0000_0000
    ensures total == Wrapped(body + length) <==> total == body + length
  {
  }

  method DeserializeConfig(text: string) returns (r: Option<(uint64, string)>)
    requires |text| < 0x1_0000_0000_0000_0000
    ensures r == ReadConfig(text)
    ensures forall v, snapshot :: r == Some((v, snapshot)) <==> IsConfigText(text, v, snapshot)
  {
    ConfigsIff(text);
    hide IsConfigText, Unsigned, IndexOf, Wrapped;
    var p1 := Find(text, FS, 0);
    if p1 == |text| {
      return None;
    }
    var p2 := Find(text, FS, p1 + 1);
    if p2 == |text| {
      return None;
    }
    assert text[0..p1] == text[..p1];
    var version := Unsigned(text[0..p1], 0x1_0000_0000_0000_0000);
    if version == None {
      return None;
    }
    var length := Unsigned(text[p1 + 1..p2], 0x1_0000_0000_0000_0000);
    if length == None {
      return None;
    }
    var body := p2 + 1;
    WrappedSumIff(body, length.value, |text|);
    if |text| != Wrapped(body + length.value) {
      return None;
    }
    assert text[body..body + length.value] == text[p2 + 1..];
    return Some((version.value, text[body..body + length.value]));
  }
}
