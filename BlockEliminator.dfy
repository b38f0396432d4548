/** `CartaManifestacionGenerator._strip_conditional_blocks`: whole body blocks
    between an opening paragraph `{% if NAME == 'sí' %}` and a closing
    paragraph `{% endif %}` are deleted when the condition is not `sí`; the
    two marker paragraphs are always deleted. */
module BlockEliminator {
  import opened Wrappers
  import opened Strings
  import opened Dicts
  import opened DocumentModel

  const OpenerHead: string := "{% if "
  const OpenerTail: string := "'s\U{00ED}' %}"
  const Closer: string := "{% endif %}"

  /** The stripped text of a top-level block; only paragraphs have one. */
  function BlockText(b: Block): string {
    match b
    case Para(p) => Strip(Text(p))
    case _ => ""
  }

  /** `re.match(r"\{% if (\w+)\s*==\s*'sí' %\}", txt)`: the captured name.
      A greedy `\w+` followed by a non-word character leaves no room for
      backtracking, so the name is the maximal word run after the head. */
  function OpenerName(txt: string): (r: Option<string>)
    ensures r.Some? ==> StartsWith(txt, OpenerHead + r.value) && |r.value| > 0
    ensures r.Some? ==> forall k :: 0 <= k < |r.value| ==> IsWordChar(r.value[k])
  {
    if !StartsWith(txt, OpenerHead) then None
    else
      var n := SpanWord(txt[6..]);
      var c := 6 + n;
      var d := c + LeadingSpaces(txt[c..]);
      if n == 0 || !IsPrefixAt(txt, d, "==") then None
      else
        var e := d + 2 + LeadingSpaces(txt[d + 2..]);
        if IsPrefixAt(txt, e, OpenerTail) then
          assert txt[..c] == OpenerHead + txt[6..c];
          assert forall k :: 0 <= k < n ==> txt[6..c][k] == txt[6..][k];
          Some(txt[6..c])
        else None
  }

  /** `re.match(r"\{% endif %\}", txt)`. */
  predicate IsCloser(txt: string) {
    StartsWith(txt, Closer)
  }

  /** What the scan sees in a top-level block: an opener with its name, a
      closer, or anything else. */
  datatype Kind = Opener(name: string) | Closing | Content

  /** The opener pattern is tried first, then the closer. */
  function KindOf(b: Block): Kind {
    var txt := BlockText(b);
    match OpenerName(txt)
    case Some(name) => Opener(name)
    case None => if IsCloser(txt) then Closing else Content
  }

  /** `f` applied to every element, in order. */
  function MapSeq<A, B>(s: seq<A>, f: A -> B): (r: seq<B>)
    ensures |r| == |s| && forall k :: 0 <= k < |s| ==> r[k] == f(s[k])
  {
    seq(|s|, k requires 0 <= k < |s| => f(s[k]))
  }

  function Kinds(blocks: seq<Block>): seq<Kind> {
    MapSeq(blocks, KindOf)
  }

  predicate IsMarker(b: Block) {
    !KindOf(b).Content?
  }

  /** One iteration of the scan: whether the block goes to the trash, and the
      new value of `inside_remove`. An opener whose condition is `sí` leaves
      `inside_remove` as it was (the source's `inside_keep` is never read). */
  function Step(k: Kind, cond: Dict<string, string>, removing: bool): (bool, bool) {
    match k
    case Opener(name) => (true, if GetOr(cond, name, "no") == Yes then removing else true)
    case Closing => (true, false)
    case Content => (removing, removing)
  }

  /** The trash decisions for blocks of kinds `ks`, scanning from state
      `removing`. */
  function Marks(ks: seq<Kind>, cond: Dict<string, string>, removing: bool): (r: seq<bool>)
    ensures |r| == |ks|
  {
    if ks == [] then []
    else
      var s := Step(ks[0], cond, removing);
      [s.0] + Marks(ks[1..], cond, s.1)
  }

  /** The value of `inside_remove` after scanning blocks of kinds `ks`. */
  function After(ks: seq<Kind>, cond: Dict<string, string>, removing: bool): bool {
    if ks == [] then removing
    else After(ks[1..], cond, Step(ks[0], cond, removing).1)
  }

  /** The blocks whose mark is false, in order. */
  function Kept(blocks: seq<Block>, marks: seq<bool>): (r: seq<Block>)
    requires |marks| == |blocks|
    ensures |r| <= |blocks|
  {
    if blocks == [] then []
    else (if marks[0] then [] else [blocks[0]]) + Kept(blocks[1..], marks[1..])
  }

  /** The body once the conditional blocks are gone. */
  function Stripped(blocks: seq<Block>, cond: Dict<string, string>): seq<Block> {
    Kept(blocks, Marks(Kinds(blocks), cond, false))
  }

  /** `_strip_conditional_blocks(doc, cond_values)`: one pass collects the
      trash, a second pass removes it. */
  method StripConditionalBlocks(doc: Document, cond: Dict<string, string>)
    modifies doc
    ensures doc.body == Stripped(old(doc.body), cond)
  {
    var blocks := doc.body;
    ghost var ks := Kinds(blocks);
    ghost var all := Marks(ks, cond, false);
    var removing := false;
    var trash: seq<bool> := [];
    var i := 0;
    while i < |blocks|
      invariant 0 <= i <= |blocks| == |ks|
      invariant |trash| == i
      invariant trash + Marks(ks[i..], cond, removing) == all
    {
      var kind := KindOf(blocks[i]);
      assert kind == ks[i];
      ScanStep(ks, i, cond, removing, trash, all);
      var s := Step(kind, cond, removing);
      trash := trash + [s.0];
      removing := s.1;
      i := i + 1;
    }
    ScanDone(ks, cond, removing, trash, all);
    var kept: seq<Block> := [];
    var j := |blocks|;
    while j > 0
      invariant 0 <= j <= |blocks|
      invariant kept == Kept(blocks[j..], trash[j..])
    {
      j := j - 1;
      KeptAt(blocks, trash, j);
      if !trash[j] {
        kept := [blocks[j]] + kept;
      }
    }
    assert blocks[0..] == blocks && trash[0..] == trash;
    doc.body := kept;
  }

  lemma MarksAt(ks: seq<Kind>, i: nat, cond: Dict<string, string>, removing: bool)
    requires i < |ks|
    ensures Marks(ks[i..], cond, removing)
         == [Step(ks[i], cond, removing).0] + Marks(ks[i + 1..], cond, Step(ks[i], cond, removing).1)
  {
    assert ks[i..][1..] == ks[i + 1..];
  }

  /** One step of the scan keeps the trash a prefix of the full marking. */
  lemma ScanStep(ks: seq<Kind>, i: nat, cond: Dict<string, string>, removing: bool, trash: seq<bool>, all: seq<bool>)
    requires i < |ks|
    requires trash + Marks(ks[i..], cond, removing) == all
    ensures trash + [Step(ks[i], cond, removing).0] + Marks(ks[i + 1..], cond, Step(ks[i], cond, removing).1) == all
  {
    var s := Step(ks[i], cond, removing);
    MarksAt(ks, i, cond, removing);
    assert (trash + [s.0]) + Marks(ks[i + 1..], cond, s.1) == trash + ([s.0] + Marks(ks[i + 1..], cond, s.1));
  }

  lemma ScanDone(ks: seq<Kind>, cond: Dict<string, string>, removing: bool, trash: seq<bool>, all: seq<bool>)
    requires |trash| == |ks|
    requires trash + Marks(ks[|trash|..], cond, removing) == all
    ensures trash == all
  {
    assert ks[|trash|..] == [];
  }

  lemma KeptAt(blocks: seq<Block>, marks: seq<bool>, j: nat)
    requires |marks| == |blocks| && j < |blocks|
    ensures Kept(blocks[j..], marks[j..]) == (if marks[j] then [] else [blocks[j]]) + Kept(blocks[j + 1..], marks[j + 1..])
  {
    assert blocks[j..][1..] == blocks[j + 1..];
    assert marks[j..][1..] == marks[j + 1..];
  }

  // ---------------------------------------------------------------------------
  // Properties
  // ---------------------------------------------------------------------------

  /** The opener written for a condition name is recognised as that name. */
  lemma OpenerRoundTrip(name: string)
    requires |name| > 0 && forall k :: 0 <= k < |name| ==> IsWordChar(name[k])
    ensures OpenerName(OpenerHead + name + " == " + OpenerTail) == Some(name)
  {
    OpenerNameLayout(name);
    OpenerTailLayout(name);
  }

  /** Where the name of a written opener sits. */
  lemma OpenerNameLayout(name: string)
    requires |name| > 0 && forall k :: 0 <= k < |name| ==> IsWordChar(name[k])
    ensures var txt := OpenerHead + name + " == " + OpenerTail;
      && StartsWith(txt, OpenerHead) && SpanWord(txt[6..]) == |name| && txt[6..6 + |name|] == name
  {
    var txt := OpenerHead + name + " == " + OpenerTail;
    assert txt[..6] == OpenerHead;
    var t6 := txt[6..];
    assert t6 == name + " == " + OpenerTail;
    SpanWordExact(t6, |name|);
    assert txt[6..6 + |name|] == name;
  }

  /** What follows the name of a written opener. */
  lemma OpenerTailLayout(name: string)
    ensures var txt := OpenerHead + name + " == " + OpenerTail; var c := 6 + |name|;
      && LeadingSpaces(txt[c..]) == 1 && IsPrefixAt(txt, c + 1, "==")
      && LeadingSpaces(txt[c + 3..]) == 1 && IsPrefixAt(txt, c + 4, OpenerTail)
  {
    var txt := OpenerHead + name + " == " + OpenerTail;
    var c := 6 + |name|;
    var tc := txt[c..];
    assert tc == " == " + OpenerTail;
    LeadingSpacesExact(tc, 1);
    assert txt[c + 1..c + 3] == tc[1..3];
    var td := txt[c + 3..];
    assert td == " " + OpenerTail;
    LeadingSpacesExact(td, 1);
    assert txt[c + 4..] == OpenerTail;
  }

  /** Both markers are deleted whatever the state of the scan. */
  lemma MarkersDeleted(blocks: seq<Block>, cond: Dict<string, string>, removing: bool, i: nat)
    requires i < |blocks| && IsMarker(blocks[i])
    ensures Marks(Kinds(blocks), cond, removing)[i]
  {
    MarksIndex(Kinds(blocks), cond, removing, i);
  }

  /** The decision for a block is its step from the state the blocks before
      it leave. */
  lemma {:induction false} MarksIndex(ks: seq<Kind>, cond: Dict<string, string>, removing: bool, i: nat)
    requires i < |ks|
    ensures Marks(ks, cond, removing)[i] == Step(ks[i], cond, After(ks[..i], cond, removing)).0
    decreases i
  {
    if i > 0 {
      var next := Step(ks[0], cond, removing).1;
      var rest := ks[1..];
      MarksIndex(rest, cond, next, i - 1);
      assert rest[i - 1] == ks[i];
      assert ks[..i][1..] == rest[..i - 1];
    }
  }

  /** Scanning a concatenation is scanning the first part, then the second
      from the state the first one left. */
  lemma {:induction false} MarksAppend(a: seq<Kind>, b: seq<Kind>, cond: Dict<string, string>, removing: bool)
    ensures Marks(a + b, cond, removing) == Marks(a, cond, removing) + Marks(b, cond, After(a, cond, removing))
    ensures After(a + b, cond, removing) == After(b, cond, After(a, cond, removing))
    decreases |a|
  {
    if a != [] {
      assert (a + b)[1..] == a[1..] + b;
      MarksAppend(a[1..], b, cond, Step(a[0], cond, removing).1);
    } else {
      assert a + b == b;
    }
  }

  lemma {:induction false} KeptAppend(a: seq<Block>, ma: seq<bool>, b: seq<Block>, mb: seq<bool>)
    requires |ma| == |a| && |mb| == |b|
    ensures Kept(a + b, ma + mb) == Kept(a, ma) + Kept(b, mb)
    decreases |a|
  {
    if a != [] {
      assert (a + b)[1..] == a[1..] + b;
      assert (ma + mb)[1..] == ma[1..] + mb;
      assert (a + b)[0] == a[0] && (ma + mb)[0] == ma[0];
      KeptAppend(a[1..], ma[1..], b, mb);
      var head := if ma[0] then [] else [a[0]];
      assert Kept(a + b, ma + mb) == head + (Kept(a[1..], ma[1..]) + Kept(b, mb));
      assert Kept(a, ma) == head + Kept(a[1..], ma[1..]);
    } else {
      assert a + b == b && ma + mb == mb;
    }
  }

  lemma KindsAppend(a: seq<Block>, b: seq<Block>)
    ensures Kinds(a + b) == Kinds(a) + Kinds(b)
  {
    MapSeqAppend(a, b, KindOf);
  }

  lemma MapSeqAppend<A, B>(a: seq<A>, b: seq<A>, f: A -> B)
    ensures MapSeq(a + b, f) == MapSeq(a, f) + MapSeq(b, f)
  {
    var l, r := MapSeq(a + b, f), MapSeq(a, f) + MapSeq(b, f);
    forall k | 0 <= k < |l| ensures l[k] == r[k] {
      if k < |a| {
        assert (a + b)[k] == a[k];
      } else {
        assert (a + b)[k] == b[k - |a|];
      }
    }
  }

  lemma KindsSingle(b: Block, k: Kind)
    requires KindOf(b) == k
    ensures Kinds([b]) == [k]
  {
    assert MapSeq([b], KindOf)[0] == KindOf(b);
  }

  lemma MarkerFreeKinds(blocks: seq<Block>)
    requires MarkerFree(blocks)
    ensures AllContent(Kinds(blocks))
  {
    forall k | 0 <= k < |blocks| ensures Kinds(blocks)[k] == Content {
      assert !IsMarker(blocks[k]);
    }
  }

  predicate MarkerFree(blocks: seq<Block>) {
    forall k :: 0 <= k < |blocks| ==> !IsMarker(blocks[k])
  }

  predicate AllContent(ks: seq<Kind>) {
    forall k :: 0 <= k < |ks| ==> ks[k] == Content
  }

  /** Between markers the state does not change and every block shares it. */
  lemma {:induction false} MarkerFreeMarks(ks: seq<Kind>, cond: Dict<string, string>, removing: bool)
    requires AllContent(ks)
    ensures Marks(ks, cond, removing) == seq(|ks|, _ => removing)
    ensures After(ks, cond, removing) == removing
    decreases |ks|
  {
    if ks != [] {
      assert ks[0] == Content;
      MarkerFreeMarks(ks[1..], cond, removing);
    }
  }

  lemma {:induction false} KeptUniform(blocks: seq<Block>, del: bool)
    ensures Kept(blocks, seq(|blocks|, _ => del)) == if del then [] else blocks
    decreases |blocks|
  {
    if blocks != [] {
      assert seq(|blocks|, _ => del)[1..] == seq(|blocks| - 1, _ => del);
      KeptUniform(blocks[1..], del);
      assert blocks == [blocks[0]] + blocks[1..];
    }
  }

  /** A body without markers is left as it is. */
  lemma NoMarkersUnchanged(blocks: seq<Block>, cond: Dict<string, string>)
    requires MarkerFree(blocks)
    ensures Stripped(blocks, cond) == blocks
  {
    MarkerFreeMarks(Kinds(blocks), cond, false);
    KeptUniform(blocks, false);
  }

  /** A closing paragraph is never taken for an opening one. */
  lemma CloserIsNotOpener(txt: string)
    requires IsCloser(txt)
    ensures OpenerName(txt) == None
  {
    assert txt[3] == Closer[3];
  }

  /** The kinds of one region. */
  lemma RegionKinds(opener: Block, mid: seq<Block>, closer: Block, name: string)
    requires OpenerName(BlockText(opener)) == Some(name)
    requires IsCloser(BlockText(closer))
    ensures Kinds([opener] + mid + [closer]) == [Opener(name)] + Kinds(mid) + [Closing]
  {
    OpenerKind(opener, name);
    KindsSingle(opener, Opener(name));
    CloserKind(closer);
    KindsSingle(closer, Closing);
    KindsAppend([opener], mid);
    KindsAppend([opener] + mid, [closer]);
  }

  lemma OpenerKind(b: Block, name: string)
    requires OpenerName(BlockText(b)) == Some(name)
    ensures KindOf(b) == Opener(name)
  {
  }

  lemma CloserKind(b: Block)
    requires IsCloser(BlockText(b))
    ensures KindOf(b) == Closing
  {
    CloserIsNotOpener(BlockText(b));
  }

  /** The decisions for one region opened with state off. */
  lemma RegionMarks(mid: seq<Kind>, cond: Dict<string, string>, name: string)
    requires AllContent(mid)
    ensures var inner := GetOr(cond, name, "no") != Yes;
      && Marks([Opener(name)] + mid + [Closing], cond, false) == [true] + seq(|mid|, _ => inner) + [true]
      && After([Opener(name)] + mid + [Closing], cond, false) == false
  {
    var inner := GetOr(cond, name, "no") != Yes;
    assert Marks([Opener(name)], cond, false) == [true] && After([Opener(name)], cond, false) == inner;
    MarkerFreeMarks(mid, cond, inner);
    MarksAppend([Opener(name)], mid, cond, false);
    assert Marks([Closing], cond, inner) == [true] && After([Closing], cond, inner) == false;
    MarksAppend([Opener(name)] + mid, [Closing], cond, false);
  }

  /** Keeping by a concatenation of three decision lists. */
  lemma KeptThree(a: seq<Block>, ma: seq<bool>, b: seq<Block>, mb: seq<bool>, c: seq<Block>, mc: seq<bool>)
    requires |ma| == |a| && |mb| == |b| && |mc| == |c|
    ensures Kept(a + b + c, ma + mb + mc) == Kept(a, ma) + Kept(b, mb) + Kept(c, mc)
  {
    KeptAppend(a, ma, b, mb);
    KeptAppend(a + b, ma + mb, c, mc);
  }

  /** The blocks between an opener and its closer survive exactly when the
      condition is `sí` (an absent condition counts as `no`); the two marker
      paragraphs disappear, and what follows the closer is scanned afresh. */
  lemma Region(pre: seq<Block>, opener: Block, mid: seq<Block>, closer: Block, post: seq<Block>,
               cond: Dict<string, string>, name: string)
    requires After(Kinds(pre), cond, false) == false
    requires OpenerName(BlockText(opener)) == Some(name)
    requires IsCloser(BlockText(closer))
    requires MarkerFree(mid)
    ensures Stripped(pre + ([opener] + mid + [closer]) + post, cond)
         == Stripped(pre, cond) + (if GetOr(cond, name, "no") == Yes then mid else []) + Stripped(post, cond)
  {
    var inner := GetOr(cond, name, "no") != Yes;
    var open := [opener] + mid + [closer];
    var ko := Kinds(open);
    RegionKinds(opener, mid, closer, name);
    MarkerFreeKinds(mid);
    RegionMarks(Kinds(mid), cond, name);
    var mo := Marks(ko, cond, false);
    assert mo == [true] + seq(|mid|, _ => inner) + [true];
    KeptThree([opener], [true], mid, seq(|mid|, _ => inner), [closer], [true]);
    KeptUniform(mid, inner);
    assert Kept(open, mo) == (if inner then [] else mid);
    KindsAppend(pre, open);
    KindsAppend(pre + open, post);
    MarksAppend(Kinds(pre), ko, cond, false);
    MarksAppend(Kinds(pre) + ko, Kinds(post), cond, false);
    KeptThree(pre, Marks(Kinds(pre), cond, false), open, mo, post, Marks(Kinds(post), cond, false));
  }

  /** An opener whose condition is not `sí` and that is never closed deletes
      everything after it, further openers included. */
  lemma Unclosed(opener: Block, rest: seq<Block>, cond: Dict<string, string>, name: string, removing: bool)
    requires OpenerName(BlockText(opener)) == Some(name)
    requires GetOr(cond, name, "no") != Yes
    requires forall k :: 0 <= k < |rest| ==> KindOf(rest[k]) != Closing
    ensures Kept([opener] + rest, Marks(Kinds([opener] + rest), cond, removing)) == []
  {
    OpenerKind(opener, name);
    KindsSingle(opener, Opener(name));
    KindsAppend([opener], rest);
    var ks := Kinds([opener] + rest);
    assert ks[0] == Opener(name) && ks[1..] == Kinds(rest);
    RemovingMarks(Kinds(rest), cond);
    KeptUniform(rest, true);
    assert ([opener] + rest)[1..] == rest;
  }

  /** Once removing, every block up to the next closer goes to the trash. */
  lemma {:induction false} RemovingMarks(ks: seq<Kind>, cond: Dict<string, string>)
    requires forall k :: 0 <= k < |ks| ==> ks[k] != Closing
    ensures Marks(ks, cond, true) == seq(|ks|, _ => true)
    decreases |ks|
  {
    if ks != [] {
      assert ks[0] != Closing;
      assert forall k :: 0 <= k < |ks| - 1 ==> ks[1..][k] == ks[k + 1];
      RemovingMarks(ks[1..], cond);
    }
  }
}
