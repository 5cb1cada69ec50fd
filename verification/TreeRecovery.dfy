/** The flat node list of a parse determines the clause tree: a fold rebuilds its outline. */
module TreeRecovery {
  import opened Results
  import opened Text
  import opened ClauseLines
  import opened WrapJoining
  import opened ClauseParser
  import opened ParserRoundTrip

  /* ---------- outlines ---------- */

  datatype LetterOutline = LetterOutline(name: string, text: string)

  datatype ItemOutline =
    | ClauseOutline(name: string, text: string, letters: seq<LetterOutline>)
    | NoteOutline(text: string)

  /** A paragraph under the headings in force, with everything below it. */
  datatype ParaOutline = ParaOutline(heading: Heading, number: string, text: string, items: seq<ItemOutline>)

  function LettersOf(ls: seq<LetterItem>): seq<LetterOutline> {
    if ls == [] then [] else [LetterOutline([ls[0].letter], FullText(ls[0].body))] + LettersOf(ls[1..])
  }

  function ItemsOf(items: seq<Item>): seq<ItemOutline> {
    if items == [] then [] else
      [match items[0]
       case ClauseItem(name, body, letters) => ClauseOutline(name, FullText(body), LettersOf(letters))
       case NoteItem(body) => NoteOutline(FullText(body))] + ItemsOf(items[1..])
  }

  function OutlineOf(h: Heading, bs: seq<Block>): seq<ParaOutline>
    decreases |bs|
  {
    if bs == [] then [] else
    match bs[0]
    case ChapterBlock(number, title) => OutlineOf(h.(chapter := Some(number), chapterTitle := title), bs[1..])
    case SectionBlock(letter, caption) =>
      OutlineOf(h.(section := Some([letter]), sectionTitle := Some(caption)), bs[1..])
    case ParaBlock(number, body, items) =>
      [ParaOutline(h, number, FullText(body), ItemsOf(items))] + OutlineOf(h, bs[1..])
  }

  /* ---------- rebuilding ---------- */

  /** Letters and items waiting for the node they belong to, and the paragraphs behind them. */
  datatype Gathered = Gathered(letters: seq<LetterOutline>, items: seq<ItemOutline>, paras: seq<ParaOutline>)

  const NOTHING := Gathered([], [], [])

  function Absorb(n: Node, g: Gathered): Gathered {
    match (n.level2, n.level3)
    case (None, _) => Gathered([], [], [ParaOutline(n.heading, n.para, n.text, g.items)] + g.paras)
    case (Some(Clause(name)), None) => g.(letters := [], items := [ClauseOutline(name, n.text, g.letters)] + g.items)
    case (Some(Clause(_)), Some(Letter(letter))) => g.(letters := [LetterOutline(letter, n.text)] + g.letters)
    case (_, _) => g.(items := [NoteOutline(n.text)] + g.items)
  }

  function Rebuild(nodes: seq<Node>, g: Gathered): Gathered {
    if nodes == [] then g else Absorb(nodes[0], Rebuild(nodes[1..], g))
  }

  lemma {:induction false} RebuildConcat(a: seq<Node>, b: seq<Node>, g: Gathered)
    ensures Rebuild(a + b, g) == Rebuild(a, Rebuild(b, g))
  {
    hide Absorb;
    if a == [] {
      assert a + b == b;
    } else {
      assert (a + b)[1..] == a[1..] + b;
      RebuildConcat(a[1..], b, g);
    }
  }

  lemma {:induction false} RebuildCons(n: Node, rest: seq<Node>, g: Gathered)
    ensures Rebuild([n] + rest, g) == Absorb(n, Rebuild(rest, g))
  {
    assert ([n] + rest)[1..] == rest;
  }

  lemma {:induction false} LettersRebuilt(base: Node, name: string, order: nat, ls: seq<LetterItem>, g: Gathered)
    requires g.letters == []
    ensures Rebuild(LetterNodes(base, name, order, ls), g) == g.(letters := LettersOf(ls))
    decreases |ls|
  {
    hide FullText, Rebuild;
    if ls == [] {
      assert Rebuild([], g) == g by { RebuildNone(g); }
    } else {
      LettersRebuilt(base, name, order + 1, ls[1..], g);
      RebuildCons(LetterNode(base, name, order, ls[0]), LetterNodes(base, name, order + 1, ls[1..]), g);
    }
  }

  lemma {:induction false} RebuildNone(g: Gathered)
    ensures Rebuild([], g) == g
  {
  }

  lemma {:induction false} ItemsRebuilt(base: Node, order: nat, notes: nat, items: seq<Item>, g: Gathered)
    requires base.IsPara() && g.letters == [] && g.items == []
    ensures Rebuild(ItemNodes(base, order, notes, items), g) == g.(items := ItemsOf(items))
    decreases |items|
  {
    hide FullText, Rebuild, LetterNodes;
    if items == [] {
      RebuildNone(g);
    } else {
      var rest := items[1..];
      match items[0] {
        case ClauseItem(name, body, letters) =>
          var n := base.(level2 := Some(Clause(name)), text := FullText(body), order := order);
          var ls, behind := LetterNodes(base, name, order + 1, letters),
              ItemNodes(base, order + 1 + |letters|, notes, rest);
          ItemsRebuilt(base, order + 1 + |letters|, notes, rest, g);
          RebuildConcat([n] + ls, behind, g);
          RebuildCons(n, ls, Rebuild(behind, g));
          LettersRebuilt(base, name, order + 1, letters, Rebuild(behind, g));
        case NoteItem(body) =>
          var n := base.(level2 := Some(Note), level3 := Some(NoteNumber(notes + 1)), text := FullText(body),
              order := order);
          ItemsRebuilt(base, order + 1, notes + 1, rest, g);
          RebuildCons(n, ItemNodes(base, order + 1, notes + 1, rest), g);
      }
    }
  }

  lemma {:induction false} TreeRebuilt(h: Heading, scope: seq<string>, order: nat, bs: seq<Block>)
    ensures Rebuild(TreeNodes(h, scope, order, bs), NOTHING) == Gathered([], [], OutlineOf(h, bs))
    decreases |bs|
  {
    hide FullText, Rebuild, ItemNodes, ItemsOf, ScopeOf, ParaSort;
    if bs == [] {
      RebuildNone(NOTHING);
    } else {
      var rest := bs[1..];
      match bs[0] {
        case ChapterBlock(number, title) =>
          TreeRebuilt(h.(chapter := Some(number), chapterTitle := title), scope, order, rest);
        case SectionBlock(letter, caption) =>
          TreeRebuilt(h.(section := Some([letter]), sectionTitle := Some(caption)), ScopeOf(caption), order, rest);
        case ParaBlock(number, body, items) =>
          var base := ParaNode(h, scope, order, number, body);
          var below := ItemNodes(base, order + 1, 0, items);
          var behind := TreeNodes(h, scope, order + 1 + |below|, rest);
          TreeRebuilt(h, scope, order + 1 + |below|, rest);
          RebuildConcat([base] + below, behind, NOTHING);
          RebuildCons(base, below, Rebuild(behind, NOTHING));
          ItemsRebuilt(base, order + 1, 0, items, Rebuild(behind, NOTHING));
      }
    }
  }

  /** Parsing the listing of a good tree loses nothing of it: the tree can be read off the nodes. */
  lemma {:induction false} TreeRecovered(dialect: Dialect, bs: seq<Block>, text: string)
    requires GoodTree(dialect, bs) && RawLines(text, 0, 0) == Listing(dialect, TreeEvents(bs))
    ensures Rebuild(After(dialect, START, JoinAll(RawLines(text, 0, 0))).nodes, NOTHING)
         == Gathered([], [], OutlineOf(START.heading, bs))
  {
    hide GoodTree, After, JoinAll, Listing, TreeNodes, TreeEvents, RawLines, Rebuild, OutlineOf;
    ParseRecoversTree(dialect, bs, text);
    TreeRebuilt(START.heading, [], 0, bs);
  }

  /** Different outlines never parse to the same nodes. */
  lemma {:induction false} ParseSeparates(dialect: Dialect, other: Dialect, bs: seq<Block>, cs: seq<Block>,
      text: string, listed: string)
    requires GoodTree(dialect, bs) && RawLines(text, 0, 0) == Listing(dialect, TreeEvents(bs))
    requires GoodTree(other, cs) && RawLines(listed, 0, 0) == Listing(other, TreeEvents(cs))
    requires After(dialect, START, JoinAll(RawLines(text, 0, 0))).nodes
             == After(other, START, JoinAll(RawLines(listed, 0, 0))).nodes
    ensures OutlineOf(START.heading, bs) == OutlineOf(START.heading, cs)
  {
    hide GoodTree, After, JoinAll, Listing, TreeEvents, RawLines, Rebuild, OutlineOf;
    TreeRecovered(dialect, bs, text);
    TreeRecovered(other, cs, listed);
  }

  /* ---------- every good tree can be printed ---------- */

  lemma {:induction false} EntryLinesPlain(dialect: Dialect, e: Event, i: nat)
    requires GoodEvent(dialect, e) && i < |Lines(dialect, e)|
    ensures Plain(Lines(dialect, e)[i])
  {
    hide IsSpace, Marker, Remainder, GoodEvent;
    if i == 0 {
      RemainderPlain(dialect, e);
      MarkerSplit(dialect, e, Remainder(e));
      var l := Marker(dialect, e) + " " + Remainder(e);
      assert l[|l| - 1] == Remainder(e)[|Remainder(e)| - 1];
    } else {
      WrapPlain(dialect, e, i - 1);
    }
  }

  lemma {:induction false} WrapPlain(dialect: Dialect, e: Event, i: nat)
    requires GoodEvent(dialect, e) && i < |Wraps(e)|
    ensures Plain(Wraps(e)[i])
  {
    hide IsSpace, Plain, IsRoman, IsParaNumber;
  }

  lemma {:induction false} ListingPlain(dialect: Dialect, es: seq<Event>, i: nat)
    requires GoodEvents(dialect, es) && i < |Listing(dialect, es)|
    ensures Plain(Listing(dialect, es)[i])
  {
    hide Plain, Lines, GoodEvent;
    if es != [] {
      var n := |Lines(dialect, es[0])|;
      if i < n {
        EntryLinesPlain(dialect, es[0], i);
      } else {
        assert forall e | e in es[1..] :: e in es;
        ListingPlain(dialect, es[1..], i - n);
      }
    }
  }

  /** Print any good tree line by line, parse the text, and the tree comes back. */
  lemma {:induction false} PrintThenParse(dialect: Dialect, bs: seq<Block>)
    requires GoodTree(dialect, bs) && forall l | l in Listing(dialect, TreeEvents(bs)) :: OneLine(l)
    ensures var text := Print(Listing(dialect, TreeEvents(bs)));
            && After(dialect, START, JoinAll(RawLines(text, 0, 0))).nodes == TreeNodes(START.heading, [], 0, bs)
            && Rebuild(After(dialect, START, JoinAll(RawLines(text, 0, 0))).nodes, NOTHING)
                == Gathered([], [], OutlineOf(START.heading, bs))
  {
    hide After, JoinAll, Listing, TreeNodes, TreeEvents, RawLines, Rebuild, OutlineOf, Print, GoodEvents, Plain,
        OneLine;
    var lines := Listing(dialect, TreeEvents(bs));
    forall i | 0 <= i < |lines| ensures Plain(lines[i]) && OneLine(lines[i]) {
      ListingPlain(dialect, TreeEvents(bs), i);
      assert lines[i] in lines;
    }
    PrintedLines(lines);
    ParseRecoversTree(dialect, bs, Print(lines));
    TreeRecovered(dialect, bs, Print(lines));
  }
}
