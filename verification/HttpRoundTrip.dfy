/** What callers of hc_http_quick_check rely on: pieces add up, and a printed head is read back. */
module HttpRoundTrip {
  import opened Bytes
  import opened HttpHead
  import opened HttpPrint
  import opened HttpQuickCheck

  /** The places where a head may be cut between two reads: in the path, the query or the version, in a header name, in
      the blanks behind its colon, in a value, or right behind a line feed. */
  ghost predicate Cuts(s: seq<byte>, cuts: seq<nat>) {
    && (forall k :: 0 <= k < |cuts| ==> cuts[k] <= |s|)
    && (forall k :: 0 < k < |cuts| ==> cuts[k - 1] <= cuts[k])
    && (forall k :: 0 <= k < |cuts| - 1 ==> Resumable(Feed(Start(), s[..cuts[k]]).mode))
  }

  lemma FeedOn(s: seq<byte>, a: nat, b: nat)
    requires a <= b <= |s|
    ensures Feed(Feed(Start(), s[..a]), s[a..b]) == Feed(Start(), s[..b])
  {
    assert s[..b] == s[..a] + s[a..b];
    FeedPieces(Start(), s[..a], s[a..b]);
  }

  /** Calls on a growing buffer give the answer and leave the fields of a single call on all of it. */
  method CheckPieces(p: HeadParser, cuts: seq<nat>) returns (r: int)
    requires p.Saved() && p.head == Start() && p.tmp == 0 && cuts != [] && Cuts(p.src[..], cuts)
    requires !LooksAhead(Feed(Start(), p.src[..cuts[|cuts| - 1]]).mode)
    modifies p, p.src
    ensures p.Answers(r, cuts[|cuts| - 1], Feed(Start(), old(p.src[..cuts[|cuts| - 1]])))
  {
    hide Feed, HeadParser.Saved, HeadParser.Answers;
    ghost var was := p.src[..];
    ghost var at := 0;
    Beginning(p);
    for k := 0 to |cuts| - 1
      invariant p.Saved() && p.tmp == at && at <= cuts[k]
      invariant p.head == Feed(Start(), was[..at]) && p.src[at..] == was[at..]
    {
      NextPiece(was, p.src[..], at, cuts[k]);
      r := p.QuickCheck(cuts[k]);
      Continued(p, r, cuts[k], Feed(Start(), was[..cuts[k]]));
      assert p.src[cuts[k]..] == was[at..][cuts[k] - at..];
      at := cuts[k];
    }
    var last := cuts[|cuts| - 1];
    NextPiece(was, p.src[..], at, last);
    r := p.QuickCheck(last);
    assert was[..last] == old(p.src[..last]);
  }

  lemma Beginning(p: HeadParser)
    ensures Feed(Start(), p.src[..][..0]) == Start() && p.src[0..] == p.src[..][0..]
  {
    assert p.src[..][..0] == [];
  }

  lemma NextPiece(was: seq<byte>, now: seq<byte>, a: nat, b: nat)
    requires a <= b <= |was| == |now| && now[a..] == was[a..]
    ensures Feed(Feed(Start(), was[..a]), now[a..b]) == Feed(Start(), was[..b])
  {
    assert now[a..b] == now[a..][..b - a] == was[a..][..b - a] == was[a..b];
    FeedOn(was, a, b);
  }

  lemma Continued(p: HeadParser, r: int, max: nat, goal: Head)
    requires p.Answers(r, max, goal) && Resumable(goal.mode)
    ensures p.Saved() && p.tmp == max && p.head == goal
  {
    hide Feed, Linked;
  }

  const POST: seq<byte> := [112, 111, 115, 116]

  /** The method dictionary: get, post, options, head, put and delete. */
  const METHODS: map<seq<byte>, nat> :=
    map[GET := 1, POST := 2, [111, 112, 116, 105, 111, 110, 115] := 3, [104, 101, 97, 100] := 4, [112, 117, 116] := 5,
        [100, 101, 108, 101, 116, 101] := 6]

  /** The number stored for a method is the one the dictionary has for it, 0 for none, if and only if the method is not
      a four-letter word that begins with "po" and is not "post". */
  lemma VerbExact(word: seq<byte>)
    ensures VerbOf(word, METHODS) == (if word in METHODS then METHODS[word] else 0)
       <==> !(|word| == 4 && word[0] == POST[0] && word[1] == POST[1] && word != POST)
  {
    if |word| == 4 {
      assert word[..2] == [word[0], word[1]];
    }
  }

  /** A printed head is read back, whatever follows it in the buffer: the answer, the method, the head's length, the
      path, the query, the version's length and the header entries are those of the request printed. */
  method CheckPrinted(p: HeadParser, max: nat, ghost q: Request, ghost body: seq<byte>) returns (r: int)
    requires p.Saved() && p.head == Start() && p.tmp == 0 && WellFormed(q)
    requires max <= p.src.Length && p.src[..max] == Print(q) + body
    modifies p, p.src
    ensures r == if VerbOf(LowerAll(q.verb), p.verbs) == 0 then -2 else 0
    ensures p.remote.verb == VerbOf(LowerAll(q.verb), p.verbs)
    ensures p.remote.headerLen == |Print(q)| && p.remote.versionLen == To16(|q.version|)
    ensures p.remote.headerIndexs == Entries(q.fields, |Line(q)|, map[])
    ensures p.remote.pathIndex == To16(|q.verb| + Slashes(q.path)) && p.remote.pathLen == To16(Kept(q.path, q.hasQuery))
    ensures q.hasQuery ==> p.remote.queryIndex == To16(|q.verb| + |q.path| + 2) && p.remote.queryLen == To16(|q.query|)
  {
    hide Feed, HeadParser.Saved, HeadParser.Answers, Kept, Slashes, To16, VerbOf, Entries, Line, Print, WellFormed;
    assert p.src[0..max] == p.src[..max];
    ParsePrinted(q, body);
    ghost var goal := Feed(Start(), Print(q) + body);
    r := p.QuickCheck(max);
    FieldsOf(p, r, max, goal);
  }

  /** The fields after a complete head. */
  lemma FieldsOf(p: HeadParser, r: int, max: nat, goal: Head)
    requires p.Answers(r, max, goal) && goal.mode == Done
    ensures r == if VerbOf(goal.line.word, p.verbs) == 0 then -2 else 0
    ensures p.remote.verb == VerbOf(goal.line.word, p.verbs) && p.remote.headerLen == |goal.text|
    ensures p.remote.pathIndex == To16(goal.line.pathAt) && p.remote.pathLen == To16(goal.line.pathLen)
    ensures p.remote.queryIndex == To16(goal.line.queryAt) && p.remote.queryLen == To16(goal.line.queryLen)
    ensures p.remote.versionLen == To16(goal.line.versionLen) && p.remote.headerIndexs == goal.entry.index
  {
    hide Feed, HeadParser.Saved, To16, VerbOf;
  }

  /** A head with a byte that its path, its query, its version or a header name may not hold is refused, and one that
      goes on with any other byte there is not. */
  method CheckRefused(p: HeadParser, max: nat, ghost place: Place, ghost c: byte, ghost rest: seq<byte>)
    returns (r: int)
    requires p.Saved() && p.head == Start() && p.tmp == 0 && PlaceOk(place)
    requires max <= p.src.Length && p.src[..max] == TextBefore(place) + [c] + rest
    requires Refuses(place, c) || (rest == [] && c != 13)
    modifies p, p.src
    ensures r == -1 <==> Refuses(place, c)
  {
    hide Feed, HeadParser.Saved, Refuses, TextBefore, PlaceOk;
    assert p.src[0..max] == p.src[..max];
    RefusedAt(place, c, rest);
    assert rest == [] ==> TextBefore(place) + [c] + rest == TextBefore(place) + [c];
    if !Refuses(place, c) {
      NotAhead(place, c);
    }
    r := p.QuickCheck(max);
  }

  /** The parser does not look at the byte behind its buffer there. */
  lemma NotAhead(place: Place, c: byte)
    requires PlaceOk(place) && !Refuses(place, c) && c != 13
    ensures !LooksAhead(Feed(Start(), TextBefore(place) + [c]).mode)
  {
    hide Feed, Step, AtPathEnd, Line, FieldsText, HttpPrint.Target, WellFormed, VerbAndPath, NameOf;
    match place {
      case InPath(verb, path) => FeedVerbPath(verb, path); PathEndModes(Feed(Start(), verb + [SP]), path);
      case InQuery(verb, path, query) => FeedQueryText(verb, path, query);
      case InVersion(r, version) => FeedVersionText(r, version);
      case InName(r, name) => FeedNameText(r, name);
    }
    var h := Feed(Start(), TextBefore(place));
    FeedPieces(Start(), TextBefore(place), [c]);
    FeedOne(h, c);
    BadByte(h, c);
    OneOn(h, c);
  }

  lemma OneOn(h: Head, c: byte)
    requires h.mode == Slash || h.mode == Path || h.mode == Query || h.mode == Gap || h.mode == Version
          || h.mode == LineStart || h.mode == Name
    requires c != 13
    ensures !LooksAhead(Step(h, c).mode)
  {}
}
