/** The OTB tree format (engine/src/fileloader.cpp, engine/src/fileloader.h): a stack parser
    over START, END and ESCAPE bytes, and the separate pass that removes escapes from the
    properties of one node.

    The exception thrown on a malformed file is the value `InvalidFormat`. */
module OtbLoader {
  import opened Common

  datatype Result<+T> = Ok(value: T) | InvalidFormat

  const ESCAPE: byte := 0xFD
  const START: byte := 0xFE
  const END: byte := 0xFF

  const IDENTIFIER_SIZE := 4
  const WILDCARD: seq<byte> := [0, 0, 0, 0]
  // identifier, START, type, END
  const MINIMAL_SIZE := 7

  // What the constructor lets through.
  predicate Accepted(bytes: seq<byte>, identifier: seq<byte>) {
    |bytes| > MINIMAL_SIZE && (bytes[..IDENTIFIER_SIZE] == identifier || bytes[..IDENTIFIER_SIZE] == WILDCARD)
  }

  // ----- The format ----------------------------------------------------------------------

  /** A node as laid out in a file: its type, the range [begin, end) of its raw properties,
      the position after its END, and its children. */
  datatype Tree = Tree(typ: byte, begin: nat, end: nat, stop: nat, kids: seq<Tree>)

  predicate IsSpecial(b: byte) {
    b == ESCAPE || b == START || b == END
  }

  // bytes[i..j] holds no unescaped START or END, and every ESCAPE in it is followed, within
  // it, by the byte it escapes.
  predicate IsRun(bytes: seq<byte>, i: nat, j: nat)
    requires j <= |bytes|
    decreases j - i
  {
    i == j ||
    (i < j && if bytes[i] == ESCAPE then i + 1 < j && IsRun(bytes, i + 2, j)
              else !IsSpecial(bytes[i]) && IsRun(bytes, i + 1, j))
  }

  // Where the unscanned rest of an open node begins: after its last child, or at its properties.
  function RestOf(begin: nat, kids: seq<Tree>): nat {
    if kids == [] then begin else kids[|kids| - 1].stop
  }

  // The children lie one after the other, with runs between them; the properties end where
  // the first one starts.
  predicate KidsLaidOut(bytes: seq<byte>, begin: nat, end: nat, kids: seq<Tree>)
    decreases kids
  {
    kids == [] ||
    (var (older, last) := (kids[..|kids| - 1], kids[|kids| - 1]);
     && KidsLaidOut(bytes, begin, end, older)
     && (older == [] ==> end + 2 == last.begin)
     && WellFormed(bytes, last)
     && IsRun(bytes, RestOf(begin, older), last.begin - 2))
  }

  // START, type, a run of properties, children separated by runs, a run, END.
  predicate WellFormed(bytes: seq<byte>, t: Tree)
    decreases t
  {
    && 2 <= t.begin < t.stop <= |bytes|
    && bytes[t.begin - 2] == START && bytes[t.begin - 1] == t.typ && bytes[t.stop - 1] == END
    && KidsLaidOut(bytes, t.begin, t.end, t.kids)
    && (t.kids == [] ==> t.end == t.stop - 1)
    && IsRun(bytes, RestOf(t.begin, t.kids), t.stop - 1)
  }

  // A file whose root is `t`; a run may follow the root.
  predicate WellFormedFile(bytes: seq<byte>, t: Tree) {
    WellFormed(bytes, t) && t.begin == IDENTIFIER_SIZE + 2 && IsRun(bytes, t.stop, |bytes|)
  }

  // ----- The parser as a function --------------------------------------------------------

  // A node whose END has not been read.
  datatype Frame = Frame(typ: byte, begin: nat, end: nat, kids: seq<Tree>)

  // `propsEnd` is set when the first child or the END arrives.
  function WithEnd(f: Frame, i: nat): Frame {
    if f.kids == [] then f.(end := i) else f
  }

  function Closed(f: Frame, i: nat): Tree {
    Tree(f.typ, f.begin, WithEnd(f, i).end, i + 1, f.kids)
  }

  function Push(stack: seq<Frame>, i: nat, typ: byte): seq<Frame>
    requires stack != []
  {
    var top := stack[|stack| - 1];
    stack[..|stack| - 1] + [WithEnd(top, i), Frame(typ, i + 2, 0, [])]
  }

  function Pop(stack: seq<Frame>, i: nat): seq<Frame>
    requires |stack| > 1
  {
    var top, parent := stack[|stack| - 1], stack[|stack| - 2];
    stack[..|stack| - 2] + [parent.(kids := parent.kids + [Closed(top, i)])]
  }

  // The outcome of the loop from position `i`; `root` is meaningful once the stack is empty.
  function Scan(bytes: seq<byte>, i: nat, stack: seq<Frame>, root: Tree): Result<Tree>
    requires i <= |bytes|
    decreases |bytes| - i
  {
    if i == |bytes| then
      if stack == [] then Ok(root) else InvalidFormat
    else if bytes[i] == START then
      if stack == [] || i + 1 == |bytes| then InvalidFormat
      else Scan(bytes, i + 2, Push(stack, i, bytes[i + 1]), root)
    else if bytes[i] == END then
      if stack == [] then InvalidFormat
      else if |stack| == 1 then Scan(bytes, i + 1, [], Closed(stack[0], i))
      else Scan(bytes, i + 1, Pop(stack, i), root)
    else if bytes[i] == ESCAPE then
      if i + 1 == |bytes| then InvalidFormat else Scan(bytes, i + 2, stack, root)
    else
      Scan(bytes, i + 1, stack, root)
  }

  const NO_TREE := Tree(0, 0, 0, 0, [])

  function Parse(bytes: seq<byte>): Result<Tree>
    requires |bytes| > MINIMAL_SIZE
  {
    if bytes[IDENTIFIER_SIZE] != START then InvalidFormat
    else Scan(bytes, IDENTIFIER_SIZE + 2, [Frame(bytes[IDENTIFIER_SIZE + 1], IDENTIFIER_SIZE + 2, 0, [])], NO_TREE)
  }

  // ----- Every well-formed file is parsed ------------------------------------------------

  lemma {:induction false} ScanRun(bytes: seq<byte>, i: nat, j: nat, stack: seq<Frame>, root: Tree)
    requires j <= |bytes| && IsRun(bytes, i, j)
    ensures i <= j && Scan(bytes, i, stack, root) == Scan(bytes, j, stack, root)
    decreases j - i
  {
    if i < j {
      ScanRun(bytes, if bytes[i] == ESCAPE then i + 2 else i + 1, j, stack, root);
    }
  }

  // The stack on reaching the end of a child: the child now hangs below the top.
  function Adopt(stack: seq<Frame>, t: Tree): seq<Frame>
    requires stack != [] && t.begin >= 2
  {
    var top := WithEnd(stack[|stack| - 1], t.begin - 2);
    stack[..|stack| - 1] + [top.(kids := top.kids + [t])]
  }

  lemma {:induction false} ScanNode(bytes: seq<byte>, t: Tree, stack: seq<Frame>, root: Tree)
    requires WellFormed(bytes, t) && stack != []
    ensures Scan(bytes, t.begin - 2, stack, root) == Scan(bytes, t.stop, Adopt(stack, t), root)
    decreases t, 1
  {
    var started := Push(stack, t.begin - 2, t.typ);
    var below := started[..|stack|];
    assert started == below + [OpenFrame(t, 0)] && t.kids[..|t.kids|] == t.kids;
    ScanKids(bytes, t, |t.kids|, below, root);
    var full := below + [OpenFrame(t, |t.kids|)];
    ScanRun(bytes, RestOf(t.begin, t.kids), t.stop - 1, full, root);
    assert Closed(full[|stack|], t.stop - 1) == t;
    assert Pop(full, t.stop - 1) == Adopt(stack, t);
  }

  // The frame of `t` once its first k children have been read.
  function OpenFrame(t: Tree, k: nat): Frame
    requires k <= |t.kids|
  {
    Frame(t.typ, t.begin, if k == 0 then 0 else t.end, t.kids[..k])
  }

  lemma {:induction false} ScanKids(bytes: seq<byte>, t: Tree, k: nat, below: seq<Frame>, root: Tree)
    requires k <= |t.kids| && KidsLaidOut(bytes, t.begin, t.end, t.kids[..k]) && t.begin <= |bytes|
    ensures RestOf(t.begin, t.kids[..k]) <= |bytes|
    ensures Scan(bytes, t.begin, below + [OpenFrame(t, 0)], root)
         == Scan(bytes, RestOf(t.begin, t.kids[..k]), below + [OpenFrame(t, k)], root)
    decreases t, 0, k
  {
    if k > 0 {
      var kid := t.kids[k - 1];
      assert t.kids[..k][..k - 1] == t.kids[..k - 1];
      ScanKids(bytes, t, k - 1, below, root);
      var stack := below + [OpenFrame(t, k - 1)];
      ScanRun(bytes, RestOf(t.begin, t.kids[..k - 1]), kid.begin - 2, stack, root);
      ScanNode(bytes, kid, stack, root);
      assert t.kids[..k] == t.kids[..k - 1] + [kid];
      assert Adopt(stack, kid) == below + [OpenFrame(t, k)];
    }
  }

  lemma WellFormedIsParsed(bytes: seq<byte>, t: Tree)
    requires |bytes| > MINIMAL_SIZE && WellFormedFile(bytes, t)
    ensures Parse(bytes) == Ok(t)
  {
    var n := |t.kids|;
    assert t.kids[..n] == t.kids;
    ScanKids(bytes, t, n, [], NO_TREE);
    assert [] + [OpenFrame(t, n)] == [OpenFrame(t, n)] && [] + [OpenFrame(t, 0)] == [OpenFrame(t, 0)];
    ScanRun(bytes, RestOf(t.begin, t.kids), t.stop - 1, [OpenFrame(t, n)], NO_TREE);
    assert Closed(OpenFrame(t, n), t.stop - 1) == t;
    ScanRun(bytes, t.stop, |bytes|, [], t);
  }

  // ----- Everything parsed is well formed ------------------------------------------------

  // The open node `f` accounts for the bytes from its START up to position `i`.
  ghost predicate OpenUpTo(bytes: seq<byte>, f: Frame, i: nat) {
    && 2 <= f.begin <= i <= |bytes| && bytes[f.begin - 2] == START && bytes[f.begin - 1] == f.typ
    && KidsLaidOut(bytes, f.begin, f.end, f.kids)
    && IsRun(bytes, RestOf(f.begin, f.kids), i)
  }

  // The whole stack does: each open node up to the START of the next one.
  ghost predicate StackUpTo(bytes: seq<byte>, stack: seq<Frame>, i: nat)
    decreases |stack|
  {
    stack == [] ||
    (var (below, top) := (stack[..|stack| - 1], stack[|stack| - 1]);
     && OpenUpTo(bytes, top, i)
     && if below == [] then top.begin == IDENTIFIER_SIZE + 2
        else (below[|below| - 1].kids == [] ==> below[|below| - 1].end == top.begin - 2)
             && StackUpTo(bytes, below, top.begin - 2))
  }

  lemma {:induction false} RunExtends(bytes: seq<byte>, i: nat, j: nat, j': nat)
    requires j <= j' <= |bytes| && IsRun(bytes, i, j) && IsRun(bytes, j, j')
    ensures IsRun(bytes, i, j')
    decreases j - i
  {
    if i < j {
      RunExtends(bytes, if bytes[i] == ESCAPE then i + 2 else i + 1, j, j');
    }
  }

  lemma PushUpTo(bytes: seq<byte>, stack: seq<Frame>, i: nat)
    requires stack != [] && StackUpTo(bytes, stack, i) && i + 1 < |bytes| && bytes[i] == START
    ensures StackUpTo(bytes, Push(stack, i, bytes[i + 1]), i + 2)
  {
    var n := |stack|;
    var (next, top) := (Push(stack, i, bytes[i + 1]), stack[n - 1]);
    var below := stack[..n - 1] + [WithEnd(top, i)];
    assert next[..n] == below && below[..n - 1] == stack[..n - 1];
    assert OpenUpTo(bytes, WithEnd(top, i), i);
    assert StackUpTo(bytes, below, i);
  }

  lemma ClosedIsWellFormed(bytes: seq<byte>, f: Frame, i: nat)
    requires OpenUpTo(bytes, f, i) && i < |bytes| && bytes[i] == END
    ensures WellFormed(bytes, Closed(f, i))
  {
  }

  lemma LaidOutPlusOne(bytes: seq<byte>, begin: nat, end: nat, older: seq<Tree>, t: Tree)
    requires KidsLaidOut(bytes, begin, end, older) && WellFormed(bytes, t)
    requires older == [] ==> end + 2 == t.begin
    requires IsRun(bytes, RestOf(begin, older), t.begin - 2)
    ensures KidsLaidOut(bytes, begin, end, older + [t]) && RestOf(begin, older + [t]) == t.stop
  {
    assert (older + [t])[..|older|] == older;
  }

  lemma KidAdded(bytes: seq<byte>, f: Frame, t: Tree)
    requires WellFormed(bytes, t) && OpenUpTo(bytes, f, t.begin - 2)
    requires f.kids == [] ==> f.end == t.begin - 2
    ensures OpenUpTo(bytes, f.(kids := f.kids + [t]), t.stop)
  {
    LaidOutPlusOne(bytes, f.begin, f.end, f.kids, t);
  }

  lemma PopUpTo(bytes: seq<byte>, stack: seq<Frame>, i: nat)
    requires |stack| > 1 && StackUpTo(bytes, stack, i) && i < |bytes| && bytes[i] == END
    ensures StackUpTo(bytes, Pop(stack, i), i + 1)
  {
    var n := |stack|;
    var (top, parent) := (stack[n - 1], stack[n - 2]);
    ClosedIsWellFormed(bytes, top, i);
    BelowUpTo(bytes, stack, i);
    KidAdded(bytes, parent, Closed(top, i));
    assert Pop(stack, i)[..n - 2] == stack[..n - 2];
  }

  // What the two topmost open nodes account for, and those below.
  lemma BelowUpTo(bytes: seq<byte>, stack: seq<Frame>, i: nat)
    requires |stack| > 1 && StackUpTo(bytes, stack, i)
    ensures var (n, top, parent) := (|stack|, stack[|stack| - 1], stack[|stack| - 2]);
            && OpenUpTo(bytes, top, i) && OpenUpTo(bytes, parent, top.begin - 2)
            && (parent.kids == [] ==> parent.end == top.begin - 2)
            && if n == 2 then parent.begin == IDENTIFIER_SIZE + 2
               else (stack[n - 3].kids == [] ==> stack[n - 3].end == parent.begin - 2)
                    && StackUpTo(bytes, stack[..n - 2], parent.begin - 2)
  {
    var n := |stack|;
    var below := stack[..n - 1];
    assert StackUpTo(bytes, below, stack[n - 1].begin - 2) && below[n - 2] == stack[n - 2];
    assert below[..n - 2] == stack[..n - 2];
  }

  lemma SkipUpTo(bytes: seq<byte>, stack: seq<Frame>, i: nat, j: nat)
    requires StackUpTo(bytes, stack, i) && i <= j <= |bytes| && IsRun(bytes, i, j)
    ensures StackUpTo(bytes, stack, j)
  {
    if stack != [] {
      var top := stack[|stack| - 1];
      RunExtends(bytes, RestOf(top.begin, top.kids), i, j);
    }
  }

  // Once the stack is empty, `root` is a complete root and only a run follows.
  ghost predicate ScannedUpTo(bytes: seq<byte>, i: nat, stack: seq<Frame>, root: Tree) {
    && i <= |bytes|
    && StackUpTo(bytes, stack, i)
    && (stack == [] ==> WellFormed(bytes, root) && root.begin == IDENTIFIER_SIZE + 2 && IsRun(bytes, root.stop, i))
  }

  lemma RootClosed(bytes: seq<byte>, stack: seq<Frame>, i: nat, root: Tree)
    requires ScannedUpTo(bytes, i, stack, root) && |stack| == 1 && i < |bytes| && bytes[i] == END
    ensures ScannedUpTo(bytes, i + 1, [], Closed(stack[0], i))
  {
    assert stack[..0] == [];
    ClosedIsWellFormed(bytes, stack[0], i);
  }

  lemma ByteSkipped(bytes: seq<byte>, i: nat, j: nat, stack: seq<Frame>, root: Tree)
    requires ScannedUpTo(bytes, i, stack, root) && i < j <= |bytes| && bytes[i] != START && bytes[i] != END
    requires j == if bytes[i] == ESCAPE then i + 2 else i + 1
    ensures ScannedUpTo(bytes, j, stack, root)
  {
    assert IsRun(bytes, i, j);
    SkipUpTo(bytes, stack, i, j);
    if stack == [] {
      RunExtends(bytes, root.stop, i, j);
    }
  }

  lemma {:induction false} ScanIsSound(bytes: seq<byte>, i: nat, stack: seq<Frame>, root: Tree)
    requires ScannedUpTo(bytes, i, stack, root)
    ensures Scan(bytes, i, stack, root).Ok? ==> WellFormedFile(bytes, Scan(bytes, i, stack, root).value)
    decreases |bytes| - i
  {
    if i == |bytes| {
    } else if bytes[i] == START {
      if stack != [] && i + 1 < |bytes| {
        PushUpTo(bytes, stack, i);
        ScanIsSound(bytes, i + 2, Push(stack, i, bytes[i + 1]), root);
      }
    } else if bytes[i] == END {
      if |stack| == 1 {
        RootClosed(bytes, stack, i, root);
        ScanIsSound(bytes, i + 1, [], Closed(stack[0], i));
      } else if |stack| > 1 {
        PopUpTo(bytes, stack, i);
        ScanIsSound(bytes, i + 1, Pop(stack, i), root);
      }
    } else {
      var j := if bytes[i] == ESCAPE then i + 2 else i + 1;
      if j <= |bytes| {
        ByteSkipped(bytes, i, j, stack, root);
        ScanIsSound(bytes, j, stack, root);
      }
    }
  }

  // The parser accepts exactly the well-formed files, and rebuilds exactly their tree.
  lemma ParsesExactlyWellFormed(bytes: seq<byte>, t: Tree)
    requires |bytes| > MINIMAL_SIZE
    ensures Parse(bytes) == Ok(t) <==> WellFormedFile(bytes, t)
  {
    if WellFormedFile(bytes, t) {
      WellFormedIsParsed(bytes, t);
    } else if bytes[IDENTIFIER_SIZE] == START {
      ScanIsSound(bytes, IDENTIFIER_SIZE + 2, [Frame(bytes[IDENTIFIER_SIZE + 1], IDENTIFIER_SIZE + 2, 0, [])], NO_TREE);
    }
  }

  // ----- Removing escapes ----------------------------------------------------------------

  // The un-escaper: drops an ESCAPE unless the byte before it was a dropped ESCAPE.
  function Unescape(s: seq<byte>, lastEscaped: bool): seq<byte> {
    if s == [] then []
    else
      var escaped := s[0] == ESCAPE && !lastEscaped;
      (if escaped then [] else [s[0]]) + Unescape(s[1..], escaped)
  }

  lemma UnescapeStep(bytes: seq<byte>, i: nat, j: nat, lastEscaped: bool)
    requires i < j <= |bytes|
    ensures Unescape(bytes[i..j], lastEscaped)
         == var escaped := bytes[i] == ESCAPE && !lastEscaped;
            ((if escaped then [] else [bytes[i]]) + Unescape(bytes[i + 1..j], escaped))
  {
    assert bytes[i..j][1..] == bytes[i + 1..j];
  }

  lemma UnescapeNext(bytes: seq<byte>, i: nat, j: nat, lastEscaped: bool, before: seq<byte>)
    requires i < j <= |bytes|
    ensures before + Unescape(bytes[i..j], lastEscaped)
         == var escaped := bytes[i] == ESCAPE && !lastEscaped;
            ((if escaped then before else before + [bytes[i]]) + Unescape(bytes[i + 1..j], escaped))
  {
    UnescapeStep(bytes, i, j, lastEscaped);
  }

  // Whether the un-escaper ends with an ESCAPE that escaped nothing.
  predicate Dangles(s: seq<byte>, lastEscaped: bool) {
    if s == [] then lastEscaped else Dangles(s[1..], s[0] == ESCAPE && !lastEscaped)
  }

  // What the parser takes the run bytes[i..j] to hold: the bytes that are not escape markers.
  function Payload(bytes: seq<byte>, i: nat, j: nat): seq<byte>
    requires j <= |bytes| && IsRun(bytes, i, j)
    decreases j - i
  {
    if i == j then []
    else if bytes[i] == ESCAPE then [bytes[i + 1]] + Payload(bytes, i + 2, j)
    else [bytes[i]] + Payload(bytes, i + 1, j)
  }

  // On every run the parser accepts, the two passes agree about every escape.
  lemma {:induction false} PassesAgree(bytes: seq<byte>, i: nat, j: nat)
    requires j <= |bytes| && IsRun(bytes, i, j)
    ensures Unescape(bytes[i..j], false) == Payload(bytes, i, j) && !Dangles(bytes[i..j], false)
    decreases j - i
  {
    if i < j {
      assert bytes[i..j][1..] == bytes[i + 1..j];
      if bytes[i] == ESCAPE {
        assert bytes[i + 1..j][1..] == bytes[i + 2..j];
        PassesAgree(bytes, i + 2, j);
      } else {
        PassesAgree(bytes, i + 1, j);
      }
    }
  }

  // The properties of every node of an accepted file form a run, so the passes agree on it.
  lemma {:induction false} PropsAreRuns(bytes: seq<byte>, begin: nat, end: nat, kids: seq<Tree>)
    requires kids != [] && KidsLaidOut(bytes, begin, end, kids)
    ensures begin <= end <= |bytes| && IsRun(bytes, begin, end)
    decreases |kids|
  {
    if |kids| > 1 {
      PropsAreRuns(bytes, begin, end, kids[..|kids| - 1]);
    }
  }

  lemma NodePropsAreClean(bytes: seq<byte>, t: Tree)
    requires WellFormed(bytes, t)
    ensures t.begin <= t.end <= |bytes| && IsRun(bytes, t.begin, t.end)
    ensures !Dangles(bytes[t.begin..t.end], false)
    ensures Unescape(bytes[t.begin..t.end], false) == Payload(bytes, t.begin, t.end)
  {
    if t.kids != [] {
      PropsAreRuns(bytes, t.begin, t.end, t.kids);
    }
    PassesAgree(bytes, t.begin, t.end);
  }

  // ----- The encoder, and reading back what it writes ------------------------------------

  datatype Content = Content(typ: byte, props: seq<byte>, kids: seq<Content>)

  function Escape(props: seq<byte>): seq<byte> {
    if props == [] then []
    else (if IsSpecial(props[0]) then [ESCAPE, props[0]] else [props[0]]) + Escape(props[1..])
  }

  function Encode(n: Content): (bytes: seq<byte>)
    ensures |bytes| >= 3
    decreases n
  {
    [START, n.typ] + Escape(n.props) + EncodeKids(n.kids) + [END]
  }

  function EncodeKids(kids: seq<Content>): (bytes: seq<byte>)
    ensures bytes == [] <==> kids == []
    decreases kids
  {
    if kids == [] then [] else EncodeKids(kids[..|kids| - 1]) + Encode(kids[|kids| - 1])
  }

  // `t` is the node `n`: same types, same shape, and un-escaping gives back the properties.
  predicate Holds(bytes: seq<byte>, t: Tree, n: Content)
    decreases n
  {
    && t.typ == n.typ
    && t.begin <= t.end <= |bytes| && Unescape(bytes[t.begin..t.end], false) == n.props
    && (t.begin == t.end <==> n.props == [])
    && KidsHold(bytes, t.kids, n.kids)
  }

  predicate KidsHold(bytes: seq<byte>, ts: seq<Tree>, kids: seq<Content>)
    decreases kids
  {
    && |ts| == |kids|
    && (kids != [] ==>
          KidsHold(bytes, ts[..|ts| - 1], kids[..|kids| - 1]) && Holds(bytes, ts[|ts| - 1], kids[|kids| - 1]))
  }

  // The bytes s stand at position i.
  predicate At(bytes: seq<byte>, i: nat, s: seq<byte>) {
    i + |s| <= |bytes| && bytes[i..i + |s|] == s
  }

  lemma AtSplit(bytes: seq<byte>, i: nat, s: seq<byte>, t: seq<byte>)
    requires At(bytes, i, s + t)
    ensures At(bytes, i, s) && At(bytes, i + |s|, t)
  {
    var u := bytes[i..i + |s + t|];
    assert u[..|s|] == s && u[|s|..] == t;
    assert bytes[i..i + |s|] == u[..|s|];
    assert bytes[i + |s|..i + |s| + |t|] == u[|s|..];
  }

  lemma {:induction false} EscapeIsRun(bytes: seq<byte>, i: nat, props: seq<byte>)
    requires At(bytes, i, Escape(props))
    ensures IsRun(bytes, i, i + |Escape(props)|)
    decreases |props|
  {
    if props != [] {
      var head := if IsSpecial(props[0]) then [ESCAPE, props[0]] else [props[0]];
      AtSplit(bytes, i, head, Escape(props[1..]));
      assert bytes[i] == bytes[i..i + |head|][0];
      EscapeIsRun(bytes, i + |head|, props[1..]);
    }
  }

  lemma {:induction false} UnescapeEscape(props: seq<byte>)
    ensures Unescape(Escape(props), false) == props
    ensures Escape(props) == [] <==> props == []
  {
    if props != [] {
      var tail := Escape(props[1..]);
      UnescapeEscape(props[1..]);
      if IsSpecial(props[0]) {
        assert Escape(props)[1..] == [props[0]] + tail && Escape(props)[1..][1..] == tail;
      } else {
        assert Escape(props)[1..] == tail;
      }
    }
  }

  // Where the parts of an encoded node stand.
  lemma EncodedParts(bytes: seq<byte>, n: Content, pos: nat)
    requires At(bytes, pos, Encode(n))
    ensures At(bytes, pos + 2, Escape(n.props))
    ensures At(bytes, pos + 2 + |Escape(n.props)|, EncodeKids(n.kids))
    ensures bytes[pos] == START && bytes[pos + 1] == n.typ && bytes[pos + |Encode(n)| - 1] == END
    ensures |Encode(n)| == 3 + |Escape(n.props)| + |EncodeKids(n.kids)|
  {
    var escaped := Escape(n.props);
    AtSplit(bytes, pos, [START, n.typ] + escaped + EncodeKids(n.kids), [END]);
    AtSplit(bytes, pos, [START, n.typ] + escaped, EncodeKids(n.kids));
    AtSplit(bytes, pos, [START, n.typ], escaped);
    var stop := pos + |Encode(n)|;
    assert bytes[pos] == bytes[pos..pos + 2][0] && bytes[pos + 1] == bytes[pos..pos + 2][1];
    assert bytes[stop - 1] == bytes[stop - 1..stop][0];
  }

  // An encoded node is laid out in the file as a tree that holds it ...
  lemma {:induction false} EncodingIsWellFormed(bytes: seq<byte>, n: Content, pos: nat) returns (t: Tree)
    requires At(bytes, pos, Encode(n))
    ensures WellFormed(bytes, t) && Holds(bytes, t, n)
    ensures t.begin == pos + 2 && t.stop == pos + |Encode(n)|
    decreases n, 1
  {
    EncodedRun(bytes, n, pos);
    var end := pos + 2 + |Escape(n.props)|;
    var kids := KidsAreLaidOut(bytes, n.kids, pos + 2, end);
    t := Tree(n.typ, pos + 2, end, pos + |Encode(n)|, kids);
    PartsMakeTree(bytes, n, pos, t);
  }

  lemma EncodedRun(bytes: seq<byte>, n: Content, pos: nat)
    requires At(bytes, pos, Encode(n))
    ensures var end := pos + 2 + |Escape(n.props)|;
            At(bytes, end, EncodeKids(n.kids)) && IsRun(bytes, pos + 2, end) && end <= pos + |Encode(n)|
  {
    EncodedParts(bytes, n, pos);
    EscapeIsRun(bytes, pos + 2, n.props);
  }

  lemma PartsMakeTree(bytes: seq<byte>, n: Content, pos: nat, t: Tree)
    requires At(bytes, pos, Encode(n)) && t.begin == pos + 2 && t.end == pos + 2 + |Escape(n.props)|
             && t.stop == pos + |Encode(n)|
    requires t.typ == n.typ && IsRun(bytes, t.begin, t.end)
    requires KidsLaidOut(bytes, t.begin, t.end, t.kids) && KidsHold(bytes, t.kids, n.kids)
    requires n.kids != [] ==> RestOf(t.begin, t.kids) == t.end + |EncodeKids(n.kids)|
    ensures WellFormed(bytes, t) && Holds(bytes, t, n)
  {
    EncodedParts(bytes, n, pos);
    UnescapeEscape(n.props);
    assert bytes[t.begin..t.end] == Escape(n.props);
    assert n.kids == [] ==> EncodeKids(n.kids) == [];
  }

  // ... and so are encoded children.
  lemma {:induction false} KidsAreLaidOut(bytes: seq<byte>, kids: seq<Content>, begin: nat, pos: nat)
    returns (ts: seq<Tree>)
    requires At(bytes, pos, EncodeKids(kids)) && IsRun(bytes, begin, pos)
    ensures KidsLaidOut(bytes, begin, pos, ts) && KidsHold(bytes, ts, kids)
    ensures kids != [] ==> RestOf(begin, ts) == pos + |EncodeKids(kids)|
    decreases kids, 0
  {
    if kids == [] {
      ts := [];
    } else {
      var (older, last) := (kids[..|kids| - 1], kids[|kids| - 1]);
      LastKidSplit(bytes, kids, pos);
      var olderTrees := KidsAreLaidOut(bytes, older, begin, pos);
      var t := EncodingIsWellFormed(bytes, last, pos + |EncodeKids(older)|);
      LaidOutPlusOne(bytes, begin, pos, olderTrees, t);
      HeldPlusOne(bytes, olderTrees, t, kids);
      ts := olderTrees + [t];
    }
  }

  lemma LastKidSplit(bytes: seq<byte>, kids: seq<Content>, pos: nat)
    requires kids != [] && At(bytes, pos, EncodeKids(kids))
    ensures var (older, last) := (EncodeKids(kids[..|kids| - 1]), Encode(kids[|kids| - 1]));
            At(bytes, pos, older) && At(bytes, pos + |older|, last) && |EncodeKids(kids)| == |older| + |last|
  {
    AtSplit(bytes, pos, EncodeKids(kids[..|kids| - 1]), Encode(kids[|kids| - 1]));
  }

  lemma HeldPlusOne(bytes: seq<byte>, older: seq<Tree>, t: Tree, kids: seq<Content>)
    requires kids != [] && KidsHold(bytes, older, kids[..|kids| - 1]) && Holds(bytes, t, kids[|kids| - 1])
    ensures KidsHold(bytes, older + [t], kids)
  {
    var ts := older + [t];
    assert |ts| == |kids| && ts[..|ts| - 1] == older && ts[|ts| - 1] == t;
  }

  // A file written from a tree reads back as that tree, with every node's properties;
  // only a bare root without properties is too short to be accepted.
  lemma RoundTrip(identifier: seq<byte>, n: Content)
    requires |identifier| == IDENTIFIER_SIZE
    ensures |identifier + Encode(n)| > MINIMAL_SIZE <==> n.props != [] || n.kids != []
    ensures n.props != [] || n.kids != [] ==>
              var r := Parse(identifier + Encode(n));
              r.Ok? && Holds(identifier + Encode(n), r.value, n)
  {
    var bytes := identifier + Encode(n);
    assert At(bytes, IDENTIFIER_SIZE, Encode(n));
    EncodedParts(bytes, n, IDENTIFIER_SIZE);
    UnescapeEscape(n.props);
    var t := EncodingIsWellFormed(bytes, n, IDENTIFIER_SIZE);
    if |bytes| > MINIMAL_SIZE {
      WellFormedIsParsed(bytes, t);
    }
  }

  // ----- The loader ----------------------------------------------------------------------

  class Node {
    var typ: byte
    var propsBegin: nat
    var propsEnd: nat
    var children: seq<Node>

    constructor ()
      ensures children == [] && propsEnd == 0
    {
      typ, propsBegin, propsEnd, children := 0, 0, 0, [];
    }

    ghost function Value(): NodeValue
      reads this
    {
      NodeValue(typ, propsBegin, propsEnd, children)
    }
  }

  // The fields of some nodes at one time.
  datatype NodeValue = NodeValue(typ: byte, propsBegin: nat, propsEnd: nat, children: seq<Node>)
  type Snapshot = map<Node, NodeValue>

  ghost predicate IsSnapshot(h: Snapshot)
    reads h.Keys
  {
    forall n :: n in h ==> n.Value() == h[n]
  }

  // The finished node `n` is the tree `t`; everything below it is finished too.
  ghost predicate Shows(h: Snapshot, n: Node, t: Tree, done: set<Node>)
    decreases t
  {
    && n in done && n in h
    && h[n].typ == t.typ && h[n].propsBegin == t.begin && h[n].propsEnd == t.end
    && |h[n].children| == |t.kids|
    && forall k :: 0 <= k < |t.kids| ==> Shows(h, h[n].children[k], t.kids[k], done)
  }

  // The open node `n` is the frame `f`, except that its open child, if any, is there already.
  ghost predicate ShowsOpen(h: Snapshot, n: Node, f: Frame, child: seq<Node>, done: set<Node>) {
    && n !in done && n in h
    && h[n].typ == f.typ && h[n].propsBegin == f.begin && h[n].propsEnd == f.end
    && |h[n].children| == |f.kids| + |child| && h[n].children[|f.kids|..] == child
    && forall k :: 0 <= k < |f.kids| ==> Shows(h, h[n].children[k], f.kids[k], done)
  }

  // Each open node is the open child of the one below it; `child` hangs below the top.
  ghost predicate ShowsStack(h: Snapshot, stack: seq<Node>, frames: seq<Frame>, child: seq<Node>, done: set<Node>)
    decreases |stack|
  {
    && |stack| == |frames|
    && (stack != [] ==>
          var n := |stack| - 1;
          && stack[n] !in stack[..n]
          && ShowsOpen(h, stack[n], frames[n], child, done)
          && ShowsStack(h, stack[..n], frames[..n], [stack[n]], done))
  }

  // Finished nodes stay what they are while nobody writes to them.
  lemma {:induction false} ShowsLater(h: Snapshot, h': Snapshot, n: Node, t: Tree, done: set<Node>, more: set<Node>)
    requires Shows(h, n, t, done) && done <= more
    requires forall m :: m in done && m in h ==> m in h' && h'[m] == h[m]
    ensures Shows(h', n, t, more)
    decreases t
  {
    forall k | 0 <= k < |t.kids|
      ensures Shows(h', h'[n].children[k], t.kids[k], more)
    {
      ShowsLater(h, h', h[n].children[k], t.kids[k], done, more);
    }
  }

  lemma KidsShowLater(h: Snapshot, h': Snapshot, n: Node, f: Frame, child: seq<Node>, done: set<Node>, more: set<Node>)
    requires ShowsOpen(h, n, f, child, done) && done <= more
    requires forall m :: m in done && m in h ==> m in h' && h'[m] == h[m]
    ensures forall k :: 0 <= k < |f.kids| ==> Shows(h', h[n].children[k], f.kids[k], more)
  {
    forall k | 0 <= k < |f.kids|
      ensures Shows(h', h[n].children[k], f.kids[k], more)
    {
      ShowsLater(h, h', h[n].children[k], f.kids[k], done, more);
    }
  }

  lemma OpenShowsLater(h: Snapshot, h': Snapshot, n: Node, f: Frame, child: seq<Node>, done: set<Node>, more: set<Node>)
    requires ShowsOpen(h, n, f, child, done) && done <= more && n !in more
    requires forall m :: (m in done || m == n) && m in h ==> m in h' && h'[m] == h[m]
    ensures ShowsOpen(h', n, f, child, more)
  {
    KidsShowLater(h, h', n, f, child, done, more);
  }

  lemma {:induction false} StackShowsLater(h: Snapshot, h': Snapshot, stack: seq<Node>, frames: seq<Frame>,
                                           child: seq<Node>, done: set<Node>, more: set<Node>)
    requires ShowsStack(h, stack, frames, child, done) && done <= more
    requires forall m :: m in stack ==> m !in more
    requires forall m :: (m in done || m in stack) && m in h ==> m in h' && h'[m] == h[m]
    ensures ShowsStack(h', stack, frames, child, more)
    decreases |stack|
  {
    if stack != [] {
      var n := |stack| - 1;
      OpenShowsLater(h, h', stack[n], frames[n], child, done, more);
      StackShowsLater(h, h', stack[..n], frames[..n], [stack[n]], done, more);
    }
  }

  lemma {:induction false} StackIsKnown(h: Snapshot, stack: seq<Node>, frames: seq<Frame>, child: seq<Node>,
                                        done: set<Node>)
    requires ShowsStack(h, stack, frames, child, done)
    ensures forall m :: m in stack ==> m in h && m !in done
    decreases |stack|
  {
    if stack != [] {
      var n := |stack| - 1;
      StackIsKnown(h, stack[..n], frames[..n], [stack[n]], done);
    }
  }

  // A new child below the top of the stack.
  lemma StartKeepsStack(h: Snapshot, h': Snapshot, stack: seq<Node>, frames: seq<Frame>, done: set<Node>, child: Node,
                        i: nat)
    requires stack != [] && ShowsStack(h, stack, frames, [], done) && child !in h && done <= h.Keys
    requires h'.Keys == h.Keys + {child} && forall m :: m in h && m != stack[|stack| - 1] ==> h'[m] == h[m]
    requires var top := stack[|stack| - 1];
             && top in h && h'[top] == h[top].(propsEnd := if h[top].children == [] then i else h[top].propsEnd,
                                               children := h[top].children + [child])
    requires h'[child].propsBegin == i + 2 && h'[child].propsEnd == 0 && h'[child].children == []
    ensures ShowsStack(h', stack + [child], Push(frames, i, h'[child].typ), [], done)
  {
    var n := |stack| - 1;
    var (top, f) := (stack[n], WithEnd(frames[n], i));
    StackIsKnown(h, stack, frames, [], done);
    KidsShowLater(h, h', top, frames[n], [], done, done);
    assert ShowsOpen(h', top, f, [child], done);
    StackShowsLater(h, h', stack[..n], frames[..n], [top], done, done);
    var newFrames := Push(frames, i, h'[child].typ);
    assert newFrames[..n + 1] == frames[..n] + [f] && newFrames[..n + 1][..n] == frames[..n];
    assert ShowsStack(h', stack, newFrames[..n + 1], [child], done);
    assert (stack + [child])[..n + 1] == stack;
    assert ShowsOpen(h', child, newFrames[n + 1], [], done);
  }

  // The top of the stack is finished.
  lemma EndKeepsStack(h: Snapshot, h': Snapshot, stack: seq<Node>, frames: seq<Frame>, done: set<Node>, i: nat)
    requires stack != [] && ShowsStack(h, stack, frames, [], done)
    requires h'.Keys == h.Keys && forall m :: m in h && m != stack[|stack| - 1] ==> h'[m] == h[m]
    requires var top := stack[|stack| - 1];
             top in h && h'[top] == h[top].(propsEnd := if h[top].children == [] then i else h[top].propsEnd)
    ensures Shows(h', stack[|stack| - 1], Closed(frames[|frames| - 1], i), done + {stack[|stack| - 1]})
    ensures ShowsStack(h', stack[..|stack| - 1], if |frames| == 1 then [] else Pop(frames, i), [],
                       done + {stack[|stack| - 1]})
  {
    var n := |stack| - 1;
    var top := stack[n];
    var more := done + {top};
    KidsShowLater(h, h', top, frames[n], [], done, more);
    assert Shows(h', top, Closed(frames[n], i), more);
    if n > 0 {
      StackIsKnown(h, stack[..n], frames[..n], [top], done);
      StackShowsLater(h, h', stack[..n], frames[..n], [top], done, more);
      assert stack[..n][..n - 1] == stack[..n - 1] && frames[..n][..n - 1] == frames[..n - 1];
      var (parent, f) := (stack[n - 1], frames[n - 1]);
      ChildIsFinished(h', parent, f, top, Closed(frames[n], i), more);
      assert Pop(frames, i)[..n - 1] == frames[..n - 1];
    }
  }

  lemma ChildIsFinished(h: Snapshot, n: Node, f: Frame, child: Node, t: Tree, done: set<Node>)
    requires ShowsOpen(h, n, f, [child], done) && Shows(h, child, t, done)
    ensures ShowsOpen(h, n, f.(kids := f.kids + [t]), [], done)
  {
    var kids := h[n].children;
    assert kids[|f.kids|..][0] == kids[|f.kids|];
    assert kids[|f.kids| + 1..] == [];
  }

  class Loader {
    const fileContents: seq<byte>
    const root: Node
    var propBuffer: seq<byte>

    constructor (contents: seq<byte>, identifier: seq<byte>)
      requires Accepted(contents, identifier)
      ensures fileContents == contents && fresh(root) && root.children == [] && root.propsEnd == 0
    {
      fileContents := contents;
      root := new Node();
      propBuffer := [];
    }

    // Where the loop stands: the heap shows the frames, and scanning on from them is parsing.
    ghost predicate Scanning(it: nat, stack: seq<Node>, h: Snapshot, frames: seq<Frame>, done: set<Node>, tree: Tree)
      requires |fileContents| > MINIMAL_SIZE
      reads h.Keys
    {
      && it <= |fileContents| && |frames| == |stack|
      && IsSnapshot(h) && done <= h.Keys && ShowsStack(h, stack, frames, [], done)
      && (if stack == [] then Shows(h, root, tree, done) else stack[0] == root)
      && Scan(fileContents, it, frames, tree) == Parse(fileContents)
    }

    // START: the top of the stack gets a new child.
    method StartNode(parseStack: seq<Node>, it: nat, ghost h: Snapshot, ghost frames: seq<Frame>, ghost done: set<Node>,
                     ghost tree: Tree)
      returns (child: Node, ghost h': Snapshot, ghost frames': seq<Frame>)
      requires |fileContents| > MINIMAL_SIZE && Scanning(it, parseStack, h, frames, done, tree)
      requires parseStack != [] && it + 1 < |fileContents| && fileContents[it] == START
      modifies parseStack[|parseStack| - 1]
      ensures fresh(child) && h'.Keys == h.Keys + {child}
      ensures Scanning(it + 2, parseStack + [child], h', frames', done, tree)
    {
      var currentNode := parseStack[|parseStack| - 1];
      StackIsKnown(h, parseStack, frames, [], done);
      if currentNode.children == [] {
        currentNode.propsEnd := it;
      }
      child := new Node();
      currentNode.children := currentNode.children + [child];
      child.typ := fileContents[it + 1];
      child.propsBegin := it + 2;
      h' := h[currentNode := currentNode.Value()][child := child.Value()];
      StartKeepsStack(h, h', parseStack, frames, done, child, it);
      frames' := Push(frames, it, child.typ);
    }

    // END: the top of the stack is complete.
    method EndNode(parseStack: seq<Node>, it: nat, ghost h: Snapshot, ghost frames: seq<Frame>, ghost done: set<Node>,
                   ghost tree: Tree)
      returns (ghost h': Snapshot, ghost frames': seq<Frame>, ghost tree': Tree)
      requires |fileContents| > MINIMAL_SIZE && Scanning(it, parseStack, h, frames, done, tree)
      requires parseStack != [] && it < |fileContents| && fileContents[it] == END
      modifies parseStack[|parseStack| - 1]
      ensures h'.Keys == h.Keys
      ensures Scanning(it + 1, parseStack[..|parseStack| - 1], h', frames', done + {parseStack[|parseStack| - 1]},
              tree')
    {
      var currentNode := parseStack[|parseStack| - 1];
      StackIsKnown(h, parseStack, frames, [], done);
      if currentNode.children == [] {
        currentNode.propsEnd := it;
      }
      h' := h[currentNode := currentNode.Value()];
      EndKeepsStack(h, h', parseStack, frames, done, it);
      frames' := if |frames| == 1 then [] else Pop(frames, it);
      tree' := if |frames| == 1 then Closed(frames[0], it) else tree;
    }

    lemma TopIsKnown(it: nat, stack: seq<Node>, h: Snapshot, frames: seq<Frame>, done: set<Node>, tree: Tree)
      requires |fileContents| > MINIMAL_SIZE && Scanning(it, stack, h, frames, done, tree) && stack != []
      ensures stack[|stack| - 1] in h
    {
    }

    // Any other byte, with the byte it escapes if it is an ESCAPE, is passed over.
    lemma SkipKeepsScanning(it: nat, stack: seq<Node>, h: Snapshot, frames: seq<Frame>, done: set<Node>, tree: Tree,
                            next: nat)
      requires |fileContents| > MINIMAL_SIZE && Scanning(it, stack, h, frames, done, tree)
      requires it < next <= |fileContents| && fileContents[it] != START && fileContents[it] != END
      requires next == if fileContents[it] == ESCAPE then it + 2 else it + 1
      ensures Scanning(next, stack, h, frames, done, tree)
    {
    }

    lemma StopsScanning(it: nat, stack: seq<Node>, h: Snapshot, frames: seq<Frame>, done: set<Node>, tree: Tree)
      requires |fileContents| > MINIMAL_SIZE && Scanning(it, stack, h, frames, done, tree)
      ensures it == |fileContents| && stack == [] ==> Parse(fileContents) == Ok(tree) && Shows(h, root, tree, done)
      ensures it == |fileContents| && stack != [] ==> Parse(fileContents) == InvalidFormat
      ensures it + 1 == |fileContents| && fileContents[it] in {START, ESCAPE} ==> Parse(fileContents) == InvalidFormat
      ensures it < |fileContents| && fileContents[it] in {START, END} && stack == [] ==>
              Parse(fileContents) == InvalidFormat
    {
    }

    // One byte with the type it announces or the byte it escapes; not ok is a format error.
    method ReadByte(it: nat, parseStack: seq<Node>, ghost h: Snapshot, ghost frames: seq<Frame>, ghost done: set<Node>,
                    ghost tree: Tree)
      returns (ok: bool, next: nat, stack: seq<Node>, ghost h': Snapshot, ghost frames': seq<Frame>,
               ghost done': set<Node>, ghost tree': Tree)
      requires |fileContents| > MINIMAL_SIZE && Scanning(it, parseStack, h, frames, done, tree) && it < |fileContents|
      modifies h.Keys
      ensures h.Keys <= h'.Keys && fresh(h'.Keys - h.Keys)
      ensures !ok ==> Parse(fileContents) == InvalidFormat
      ensures ok ==> next > it && Scanning(next, stack, h', frames', done', tree')
    {
      ok, next, stack, h', frames', done', tree' := false, it, parseStack, h, frames, done, tree;
      if ErrorAt(it, parseStack) {
        StopsScanning(it, parseStack, h, frames, done, tree);
        return;
      }
      ok := true;
      if fileContents[it] == START {
        TopIsKnown(it, parseStack, h, frames, done, tree);
        var child;
        child, h', frames' := StartNode(parseStack, it, h, frames, done, tree);
        stack, next := parseStack + [child], it + 2;
        return;
      }
      if fileContents[it] == END {
        TopIsKnown(it, parseStack, h, frames, done, tree);
        h', frames', tree' := EndNode(parseStack, it, h, frames, done, tree);
        stack, done', next := parseStack[..|parseStack| - 1], done + {parseStack[|parseStack| - 1]}, it + 1;
        return;
      }
      next := if fileContents[it] == ESCAPE then it + 2 else it + 1;
      SkipKeepsScanning(it, parseStack, h, frames, done, tree, next);
    }

    // Nothing is open, or the file ends too early.
    predicate ErrorAt(it: nat, parseStack: seq<Node>)
      requires it < |fileContents|
    {
      || (fileContents[it] in {START, END} && parseStack == [])
      || (fileContents[it] in {START, ESCAPE} && it + 1 == |fileContents|)
    }

    method ParseTree() returns (r: Result<Node>)
      requires |fileContents| > MINIMAL_SIZE && root.children == [] && root.propsEnd == 0
      modifies root
      ensures r.Ok? <==> Parse(fileContents).Ok?
      ensures r.Ok? ==> r.value == root
      ensures r.Ok? ==> exists h, done ::
                IsSnapshot(h) && Shows(h, root, Parse(fileContents).value, done)
    {
      var it := IDENTIFIER_SIZE;
      if fileContents[it] != START {
        return InvalidFormat;
      }
      it := it + 1;
      root.typ := fileContents[it];
      it := it + 1;
      root.propsBegin := it;
      var parseStack := [root];
      ghost var h: Snapshot := map[root := root.Value()];
      ghost var frames := [Frame(root.typ, it, 0, [])];
      ghost var done: set<Node> := {};
      ghost var tree := NO_TREE;
      assert root.children[0..] == [];
      while it != |fileContents|
        invariant Scanning(it, parseStack, h, frames, done, tree)
        invariant forall n :: n in h ==> n == root || fresh(n)
        decreases |fileContents| - it
      {
        var ok;
        ok, it, parseStack, h, frames, done, tree := ReadByte(it, parseStack, h, frames, done, tree);
        if !ok {
          return InvalidFormat;
        }
      }
      StopsScanning(it, parseStack, h, frames, done, tree);
      if parseStack != [] {
        return InvalidFormat;
      }
      return Ok(root);
    }

    method GetProps(node: Node) returns (found: bool, props: seq<byte>)
      requires node.propsBegin <= node.propsEnd <= |fileContents|
      modifies this`propBuffer
      ensures found <==> node.propsBegin != node.propsEnd
      ensures found ==> props == Unescape(fileContents[node.propsBegin..node.propsEnd], false)
    {
      var size := node.propsEnd - node.propsBegin;
      if size == 0 {
        return false, [];
      }
      var lastEscaped := false;
      propBuffer := [];
      var it := node.propsBegin;
      while it != node.propsEnd
        invariant node.propsBegin <= it <= node.propsEnd
        invariant Unescape(fileContents[node.propsBegin..node.propsEnd], false)
               == propBuffer + Unescape(fileContents[it..node.propsEnd], lastEscaped)
        decreases node.propsEnd - it
      {
        var b := fileContents[it];
        UnescapeNext(fileContents, it, node.propsEnd, lastEscaped, propBuffer);
        lastEscaped := b == ESCAPE && !lastEscaped;
        if !lastEscaped {
          propBuffer := propBuffer + [b];
        }
        it := it + 1;
      }
      return true, propBuffer;
    }
  }
}
