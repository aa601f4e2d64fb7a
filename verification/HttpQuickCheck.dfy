/** hc_http_quick_check of src/http/http_header.c: the parser that lowers names in place, saves where it stopped and
    goes on there, proved to follow the automaton of HttpHead. */
module HttpQuickCheck {
  import opened Bytes
  import opened HttpHead

  const GET: seq<byte> := [103, 101, 116]

  /** HTTP_GET, HTTP_POST, or what the method dictionary says; 0 for a method it does not hold. The comparison with
      "post" looks at two of the four bytes. */
  function VerbOf(word: seq<byte>, verbs: map<seq<byte>, nat>): nat {
    if word == GET then 1
    else if |word| == 4 && word[..2] == [112, 111] then 2
    else if word in verbs then verbs[word]
    else 0
  }

  /** The struct HC_HttpRequestRemote; path, query and version fields are 16 bits wide. */
  datatype Remote = Remote(status: int, verb: nat, pathIndex: int, pathLen: int, queryIndex: int, queryLen: int,
                           versionLen: int,
                           tmpVar1: int, tmpVar2: int, tmpVar3: int, tmpVar4: int, headerLen: int,
                           headerIndexs: map<seq<byte>, nat>)

  predicate Early(m: Mode) {
    m == Method || m == Skip || m == Slash
  }

  ghost predicate LinkedLine(x: Remote, m: Mode, q: RequestLine, verbs: map<seq<byte>, nat>) {
    && x.queryIndex == To16(q.queryAt) && x.queryLen == To16(q.queryLen) && x.versionLen == To16(q.versionLen)
    && x.pathLen == To16(q.pathLen)
    && (if Early(m) then q.pathLen == 0 else x.pathIndex == To16(q.pathAt))
    && (m != Method ==> x.verb == VerbOf(q.word, verbs))
  }

  ghost predicate LinkedEntry(x: Remote, m: Mode, e: HeaderLine, top: nat) {
    && x.headerIndexs == e.index && (m == Path ==> top > 0)
    && (m == Name || m == AfterColon || m == Value ==>
           x.tmpVar1 == e.nameAt && x.tmpVar2 == e.nameLen && e.nameAt + e.nameLen <= top)
    && (m == Name ==> e.nameAt + e.nameLen == top)
    && (m == Value ==> x.tmpVar3 == e.valueAt && x.tmpVar4 == e.valueLen && e.valueAt + e.valueLen == top)
  }

  /** The fields hold what the automaton knows. */
  ghost predicate Linked(x: Remote, h: Head, verbs: map<seq<byte>, nat>) {
    LinkedLine(x, h.mode, h.line, verbs) && LinkedEntry(x, h.mode, h.entry, |h.text|)
  }

  /** The modes the saved fields can carry over to the next call. */
  predicate Resumable(m: Mode) {
    m == Path || m == Query || m == Version || m == LineStart || m == Name || m == AfterColon || m == Value
  }

  function StatusOf(m: Mode): int {
    match m
    case Skip => 1
    case Path => 3
    case Query => 6
    case Version => 7
    case Tail => 8
    case LineStart => 9
    case Name => 10
    case AfterColon => 11
    case Value => 12
    case _ => 0
  }

  /** The parser looks one byte ahead of these, even at the end of the buffer. */
  predicate LooksAhead(m: Mode) {
    m == Tail || m == LineEnd || m == HeadEnd
  }

  lemma FeedNext(h: Head, s: seq<byte>, i: nat, max: nat)
    requires i < max <= |s|
    ensures Feed(h, s[i..max]) == Feed(Step(h, s[i]), s[i + 1..max])
  {
    assert s[i..max][1..] == s[i + 1..max];
  }

  lemma FeedAtEnd(h: Head, s: seq<byte>, max: nat)
    requires max <= |s|
    ensures Feed(h, s[max..max]) == h
  {}

  lemma FeedBad(h: Head, s: seq<byte>)
    requires h.mode == Bad
    ensures Feed(h, s).mode == Bad
  {
    FeedOver(h, s);
  }

  /** The header entries with the value just read. */
  function Entered(h: Head): HeaderLine {
    h.entry.(index := h.entry.index[NameOf(h) := Entry(h.entry.valueLen, h.entry.valueAt)])
  }

  lemma TailStill(x: Remote, g: Head, h: Head, verbs: map<seq<byte>, nat>)
    requires Linked(x, g, verbs) && g.mode == Tail && h == g.(text := h.text)
    ensures Linked(x, h, verbs)
  {}

  datatype Verdict = Go | Return(code: int)

  class HeadParser {
    const src: array<byte>
    const verbs: map<seq<byte>, nat>
    var remote: Remote
    var tmp: nat
    ghost var head: Head

    /** Bytes up to `i` have been read and the rest is still to come. */
    ghost predicate At(i: nat, max: nat, goal: Head)
      reads this, src
    {
      && i <= max <= src.Length && src[..i] == head.text && Feed(head, src[i..max]) == goal
    }

    ghost predicate Fits()
      reads this
    {
      Linked(remote, head, verbs)
    }

    /** The byte at `i` is read and stays as it is. */
    ghost method Pass(i: nat, max: nat, goal: Head)
      requires At(i, max, goal) && i < max && Step(head, src[i]).text == head.text + [src[i]]
      modifies this`head
      ensures head == Step(old(head), src[i]) && |old(head).text| == i && At(i + 1, max, goal)
    {
      hide Step, Feed;
      FeedNext(head, src[..], i, max);
      assert src[..][i..max] == src[i..max] && src[..][i + 1..max] == src[i + 1..max];
      head := Step(head, src[i]);
    }

    /** The byte at `i` is read and lowered in place. */
    method PassLower(i: nat, max: nat, ghost goal: Head)
      requires At(i, max, goal) && i < max && Step(head, src[i]).text == head.text + [Lower(src[i])]
      modifies this`head, src
      ensures head == Step(old(head), old(src[i])) && |old(head).text| == i && At(i + 1, max, goal)
      ensures src[i + 1..] == old(src[i + 1..])
    {
      hide Step, Feed;
      ghost var was := src[..];
      FeedNext(head, was, i, max);
      assert was[i..max] == src[i..max];
      head := Step(head, src[i]);
      if Upper(src[i]) {
        src[i] := src[i] + 32;
      }
      assert src[..i] == was[..i];
      assert src[i + 1..max] == was[i + 1..max];
    }

    /** A change of view that the next byte cannot tell from the old one. */
    ghost method View(i: nat, max: nat, goal: Head, other: Head)
      requires At(i, max, goal) && i < max && other.text == head.text && Step(other, src[i]) == Step(head, src[i])
      modifies this`head
      ensures head == other && At(i, max, goal)
    {
      hide Step, Feed;
      FeedNext(head, src[..], i, max);
      FeedNext(other, src[..], i, max);
      assert src[..][i..max] == src[i..max];
      head := other;
    }

    ghost method AtEnd(max: nat, goal: Head)
      requires At(max, max, goal)
      ensures goal == head
    {
      FeedAtEnd(head, src[..], max);
      assert src[max..max] == src[..][max..max];
    }

    ghost method Failed(i: nat, max: nat, goal: Head)
      requires At(i, max, goal) && head.mode == Bad
      ensures goal.mode == Bad
    {
      FeedBad(head, src[i..max]);
    }

    /** _http_escape_: skips blanks the automaton skips as well; true when only blanks were left. */
    method Escape(i0: nat, max: nat, ghost goal: Head) returns (end: bool, i: nat)
      requires At(i0, max, goal)
      requires (head.mode == Gap || head.mode == VersionGap || head.mode == LineStart || head.mode == AfterColon)
      modifies this`head
      ensures At(i, max, goal) && i0 <= i && head == old(head).(text := head.text)
      ensures if end then i == max && goal == head else i < max && src[i] != SP
      ensures |old(head).text| <= |head.text| && head.text[..|old(head).text|] == old(head).text
    {
      hide Feed;
      i := i0;
      while i < max && src[i] == SP
        invariant At(i, max, goal) && i0 <= i && head == old(head).(text := head.text)
        invariant |old(head).text| <= |head.text| && head.text[..|old(head).text|] == old(head).text
      {
        Pass(i, max, goal);
        i := i + 1;
      }
      end := i == max;
      if end {
        AtEnd(max, goal);
      }
    }

    /** What a stage of the parser promises: it goes on with a smaller rest in the next status, fails because the
        automaton does, or has used up the buffer and saved where it stands. */
    ghost predicate Stage(v: Verdict, i0: nat, i: nat, status: int, max: nat, goal: Head)
      reads this, src
    {
      match v
      case Go => At(i, max, goal) && i0 <= i && Fits() && Ready(status, i, max)
      case Return(code) =>
        if code == -1 then goal.mode == Bad
        else
          && code == 1 && i == max && head == goal && At(max, max, goal)
          && (Resumable(goal.mode) ==> Fits()) && !Over(goal)
          && remote.status == status && tmp == max && (Resumable(goal.mode) ==> status == StatusOf(goal.mode))
    }

    ghost predicate Ready(status: int, i: nat, max: nat)
      reads this, src
    {
      match status
      case 0 => i == 0 && head == Start()
      case 1 => (head.mode == Slash && i == max) || (head.mode == Skip && i < max <= src.Length && src[i] == SLASH)
      case 3 => head.mode == Path
      case 6 => head.mode == Query
      case 7 => head.mode == Version
      case 8 => head.mode == Tail
      case 9 => head.mode == LineStart
      case 10 => head.mode == Name
      case 11 => head.mode == AfterColon
      case 12 => head.mode == Value
      case 13 => head.mode == Tail && i < max <= src.Length && src[i] == CR
      case 14 => head.mode == BlankLine && i < max <= src.Length && src[i] == CR
      case _ => false
    }

    /** _http_until_: everything up to the first slash. */
    method Until(i0: nat, max: nat, ghost goal: Head) returns (end: bool, i: nat)
      requires At(i0, max, goal) && head.mode == Method && head.line.word != []
      requires i0 < max ==> !Letter(src[i0])
      modifies this`head
      ensures At(i, max, goal) && i0 <= i
      ensures head == old(head).(mode := head.mode, text := head.text)
      ensures if end then i == max && goal == head && (head.mode == Method || head.mode == Skip)
              else i < max && src[i] == SLASH && head.mode == Skip
    {
      hide Feed;
      i := i0;
      while i < max && src[i] != SLASH
        invariant At(i, max, goal) && i0 <= i
        invariant head == old(head).(mode := head.mode, text := head.text)
        invariant head.mode == Skip || (i == i0 && head.mode == Method)
      {
        Pass(i, max, goal);
        i := i + 1;
      }
      end := i == max;
      if end {
        AtEnd(max, goal);
      } else {
        View(i, max, goal, head.(mode := Skip));
      }
    }

    /** The letters of the method. */
    method ScanVerb(max: nat, ghost goal: Head) returns (i: nat)
      requires At(0, max, goal) && head == Start()
      modifies this`head, src
      ensures At(i, max, goal) && src[max..] == old(src[max..])
      ensures head == Start().(text := head.text, line := Start().line.(word := head.text))
      ensures i < max ==> !Letter(src[i])
    {
      hide Feed;
      i := 0;
      while i < max && Letter(src[i])
        invariant At(i, max, goal) && src[max..] == old(src[max..])
        invariant head == Start().(text := head.text, line := Start().line.(word := head.text))
      {
        PassLower(i, max, goal);
        i := i + 1;
      }
    }

    /** Status 0: the method's letters, lowered in place, and then everything up to the first slash. */
    method ReadVerb(max: nat, ghost goal: Head) returns (v: Verdict, i: nat)
      requires At(0, max, goal) && max > 0 && Fits() && head == Start()
      modifies this`remote, this`tmp, this`head, src
      ensures Stage(v, 0, i, if v == Go then 1 else 0, max, goal)
      ensures src[max..] == old(src[max..])
    {
      hide Feed, VerbOf, To16;
      i := ScanVerb(max, goal);
      if i == 0 {
        Pass(i, max, goal);
        Failed(i + 1, max, goal);
        return Return(-1), i;
      }
      remote := remote.(verb := VerbOf(src[..i], verbs));
      var end;
      end, i := Until(i, max, goal);
      if end {
        remote := remote.(status := 0);
        tmp := i;
        return Return(1), i;
      }
      return Go, i;
    }

    /** Status 1: of the slashes the last one begins the path. */
    method ReadSlashes(i0: nat, max: nat, ghost goal: Head) returns (i: nat, iStart: nat)
      requires At(i0, max, goal) && Fits() && i0 < max && src[i0] == SLASH && head.mode == Skip
      modifies this`head
      ensures At(i, max, goal) && Fits() && i0 < i && head.mode == Slash && head.line.pathAt == iStart == i - 1
      ensures |head.text| == i
      ensures i < max ==> src[i] != SLASH
    {
      hide Feed, Step, Linked, VerbOf, To16;
      i, iStart := i0, i0;
      while i < max && src[i] == SLASH
        invariant At(i, max, goal) && Fits() && i0 <= i && |head.text| == i
        invariant if i == i0 then head.mode == Skip else head.mode == Slash && head.line.pathAt == iStart == i - 1
      {
        iStart := i;
        SlashRead(remote, head, verbs);
        Pass(i, max, goal);
        i := i + 1;
      }
    }

    static lemma SlashRead(x: Remote, h: Head, verbs: map<seq<byte>, nat>)
      requires Linked(x, h, verbs) && (h.mode == Skip || h.mode == Slash)
      ensures var g := Step(h, SLASH);
              && g.mode == Slash && g.text == h.text + [SLASH] && g.line.pathAt == |h.text| && Linked(x, g, verbs)
    {
      hide VerbOf, To16;
    }

    /** Statuses 2 and 3: the path up to a blank, a question mark or the end of the buffer. */
    method ScanPath(i0: nat, max: nat, ghost goal: Head) returns (ok: bool, i: nat)
      requires At(i0, max, goal) && head.mode == Path
      modifies this`head
      ensures !ok ==> goal.mode == Bad
      ensures ok ==> At(i, max, goal) && i0 <= i && |head.text| == i
                     && head == old(head).(text := head.text, line := old(head).line.(pathLen := head.line.pathLen))
                     && head.line.pathLen == old(head).line.pathLen + (i - i0) && head.text[..i0] == old(head).text
                     && (i < max ==> src[i] == QUESTION || src[i] == SP)
    {
      hide Feed;
      i := i0;
      while i < max && src[i] != QUESTION && src[i] != SP
        invariant At(i, max, goal) && i0 <= i && |head.text| == i
        invariant head == old(head).(text := head.text, line := old(head).line.(pathLen := head.line.pathLen))
        invariant head.line.pathLen == old(head).line.pathLen + (i - i0) && head.text[..i0] == old(head).text
      {
        Pass(i, max, goal);
        i := i + 1;
        if head.mode == Bad {
          Failed(i, max, goal);
        }
        if !Printable(src[i - 1]) {
          return false, i;
        }
      }
      ok := true;
    }

    /** What stands behind the path: the query, or blanks and the version. A slash at the path's end is dropped. */
    method LeavePath(i0: nat, max: nat, ghost goal: Head) returns (v: Verdict, i: nat, status: int)
      requires At(i0, max, goal) && Fits() && head.mode == Path && 0 < i0 < max && |head.text| == i0
      requires src[i0] == QUESTION || src[i0] == SP
      modifies this`remote, this`tmp, this`head
      ensures Stage(v, i0, i, status, max, goal) && (v == Go ==> i0 < i)
    {
      hide Feed, VerbOf, To16;
      assert AfterSlash(head) <==> src[i0 - 1] == SLASH by {
        assert src[i0 - 1] == src[..i0][i0 - 1];
      }
      if src[i0] == QUESTION {
        v, i, status := LeavePathQuery(i0, max, goal);
      } else {
        v, i, status := LeavePathBlank(i0, max, goal);
      }
    }

    static lemma QueryBegins(x: Remote, h: Head, verbs: map<seq<byte>, nat>, slash: bool)
      requires Linked(x, h, verbs) && h.mode == Path && slash == AfterSlash(h)
      ensures var g := Step(h, QUESTION);
              && g.mode == Query && g.text == h.text + [QUESTION]
              && Linked(x.(pathLen := if x.pathLen != 0 && slash then To16(x.pathLen - 1) else x.pathLen,
                           queryIndex := To16(|h.text| + 1)), g, verbs)
    {
      hide VerbOf, To16, AfterSlash;
      To16Sub(h.line.pathLen);
    }

    method LeavePathQuery(i0: nat, max: nat, ghost goal: Head) returns (v: Verdict, i: nat, status: int)
      requires At(i0, max, goal) && Fits() && head.mode == Path && 0 < i0 < max && |head.text| == i0
      requires src[i0] == QUESTION
      requires AfterSlash(head) <==> src[i0 - 1] == SLASH
      modifies this`remote, this`tmp, this`head
      ensures Stage(v, i0, i, status, max, goal) && (v == Go ==> i0 < i)
    {
      hide Feed, VerbOf, To16, AfterSlash, Linked, Step;
      QueryBegins(remote, head, verbs, src[i0 - 1] == SLASH);
      i := i0;
      if 0 != remote.pathLen && src[i - 1] == SLASH {
        remote := remote.(pathLen := To16(remote.pathLen - 1));
      }
      Pass(i, max, goal);
      i := i + 1;
      remote := remote.(queryIndex := To16(i));
      return Go, i, 6;
    }

    method LeavePathBlank(i0: nat, max: nat, ghost goal: Head) returns (v: Verdict, i: nat, status: int)
      requires At(i0, max, goal) && Fits() && head.mode == Path && 0 < i0 < max && |head.text| == i0 && src[i0] == SP
      requires AfterSlash(head) <==> src[i0 - 1] == SLASH
      modifies this`remote, this`tmp, this`head
      ensures Stage(v, i0, i, status, max, goal) && (v == Go ==> i0 < i)
    {
      hide Feed, VerbOf, To16, AfterSlash, Linked, Step;
      BlankBegins(remote, head, verbs, src[i0 - 1] == SLASH);
      i := i0;
      if 1 < remote.pathLen && src[i - 1] == SLASH {
        remote := remote.(pathLen := To16(remote.pathLen - 1));
      }
      Pass(i, max, goal);
      v, i, status := ToVersion(i + 1, max, 3, goal);
    }

    static lemma BlankBegins(x: Remote, h: Head, verbs: map<seq<byte>, nat>, slash: bool)
      requires Linked(x, h, verbs) && h.mode == Path && slash == AfterSlash(h)
      ensures var g := Step(h, SP);
              && g.mode == Gap && g.text == h.text + [SP]
              && Linked(x.(pathLen := if x.pathLen > 1 && slash then To16(x.pathLen - 1) else x.pathLen), g, verbs)
    {
      hide VerbOf, To16, AfterSlash;
      To16Sub(h.line.pathLen);
    }

    static lemma To16Sub(x: int)
      ensures To16(To16(x) - 1) == To16(x - 1)
    {}

    /** Blanks before the version; `status` is what is saved when nothing follows them yet. */
    method ToVersion(i0: nat, max: nat, status0: int, ghost goal: Head) returns (v: Verdict, i: nat, status: int)
      requires At(i0, max, goal) && Fits() && head.mode == Gap
      modifies this`remote, this`tmp, this`head
      ensures Stage(v, i0, i, status, max, goal) && (v == Go ==> status == 7)
    {
      hide Feed, VerbOf, To16;
      var end;
      end, i := Escape(i0, max, goal);
      if end {
        remote := remote.(status := status0);
        tmp := i;
        return Return(1), i, status0;
      }
      View(i, max, goal, head.(mode := Version));
      return Go, i, 7;
    }

    /** More of the path is read and its length noted. */
    method MorePath(i0: nat, max: nat, ghost goal: Head) returns (ok: bool, i: nat)
      requires At(i0, max, goal) && Fits() && head.mode == Path
      modifies this`remote, this`head
      ensures !ok ==> goal.mode == Bad
      ensures ok ==> At(i, max, goal) && Fits() && i0 <= i && 0 < i && |head.text| == i && head.mode == Path
                     && (i < max ==> src[i] == QUESTION || src[i] == SP)
    {
      hide Feed, VerbOf, To16, Step;
      ok, i := ScanPath(i0, max, goal);
      if ok {
        To16Add(old(head).line.pathLen, i - i0);
        remote := remote.(pathLen := To16(remote.pathLen + (i - i0)));
      }
    }

    static lemma LeaveSlash(h: Head, c: byte)
      requires h.mode == Slash && |h.text| == h.line.pathAt + 1 && c != SLASH
      ensures Step(h.(mode := Path, line := h.line.(pathLen := 1)), c) == Step(h, c)
    {}

    method FirstPiece(i0: nat, max: nat, iStart: nat, ghost goal: Head) returns (ok: bool, i: nat)
      requires At(i0, max, goal) && head.mode == Path && head.line.pathLen == 1 == i0 - iStart && remote.pathLen == 0
      requires Linked(remote.(pathIndex := To16(iStart), pathLen := 1), head, verbs)
      modifies this`remote, this`head
      ensures !ok ==> goal.mode == Bad
      ensures ok ==> At(i, max, goal) && Fits() && i0 <= i && |head.text| == i && head.mode == Path
                     && (i < max ==> src[i] == QUESTION || src[i] == SP)
    {
      hide Feed, VerbOf, To16, Step;
      ok, i := ScanPath(i0, max, goal);
      if ok {
        remote := remote.(pathIndex := To16(iStart), pathLen := To16(remote.pathLen + (i - iStart)));
      }
    }

    /** The path's first piece, with its index: status 1 remains when only slashes were left. */
    method NewPath(i0: nat, max: nat, ghost goal: Head) returns (ok: bool, i: nat, status: int)
      requires At(i0, max, goal) && Fits() && i0 < max && head.mode == Skip && src[i0] == SLASH
      modifies this`remote, this`head
      ensures !ok ==> goal.mode == Bad
      ensures ok ==> At(i, max, goal) && Fits() && i0 < i && |head.text| == i
                     && (status == 1 ==> i == max && head.mode == Slash)
                     && (status != 1 ==>
                           status == 3 && head.mode == Path && (i < max ==> src[i] == QUESTION || src[i] == SP))
    {
      hide Feed, VerbOf, To16, Step;
      var iStart;
      i, iStart := ReadSlashes(i0, max, goal);
      if i == max {
        return true, i, 1;
      }
      LeaveSlash(head, src[i]);
      View(i, max, goal, head.(mode := Path, line := head.line.(pathLen := 1)));
      ok, i := FirstPiece(i, max, iStart, goal);
      status := 3;
    }

    /** Statuses 1 to 3. */
    method ReadPath(i0: nat, max: nat, status0: int, ghost goal: Head) returns (v: Verdict, i: nat, status: int)
      requires At(i0, max, goal) && Fits() && i0 < max && (status0 == 1 || status0 == 3) && Ready(status0, i0, max)
      requires head.mode != Slash && |head.text| == i0
      modifies this`remote, this`tmp, this`head
      ensures Stage(v, i0, i, status, max, goal) && (v == Go ==> i0 < i || i == max)
    {
      hide Feed, VerbOf, To16, Linked;
      var ok;
      if status0 == 1 {
        ok, i, status := NewPath(i0, max, goal);
      } else {
        ok, i := MorePath(i0, max, goal);
        status := 3;
      }
      if !ok {
        return Return(-1), i, status;
      }
      if i == max {
        return Go, i, status;
      }
      v, i, status := LeavePath(i, max, goal);
    }

    method ScanQuery(i0: nat, max: nat, ghost goal: Head) returns (ok: bool, i: nat)
      requires At(i0, max, goal) && head.mode == Query
      modifies this`head
      ensures !ok ==> goal.mode == Bad
      ensures ok ==> At(i, max, goal) && i0 <= i && (i < max ==> src[i] == SP)
                     && head == old(head).(text := head.text,
                            line := old(head).line.(queryLen := old(head).line.queryLen + (i - i0)))
    {
      hide Feed;
      i := i0;
      while i < max && src[i] != SP
        invariant At(i, max, goal) && i0 <= i
        invariant head == old(head).(text := head.text,
            line := old(head).line.(queryLen := old(head).line.queryLen + (i - i0)))
      {
        Pass(i, max, goal);
        i := i + 1;
        if head.mode == Bad {
          Failed(i, max, goal);
        }
        if !Printable(src[i - 1]) {
          return false, i;
        }
      }
      ok := true;
    }

    method ScanVersion(i0: nat, max: nat, ghost goal: Head) returns (ok: bool, i: nat)
      requires At(i0, max, goal) && head.mode == Version
      modifies this`head
      ensures !ok ==> goal.mode == Bad
      ensures ok ==> At(i, max, goal) && i0 <= i && (i < max ==> src[i] == SP || src[i] == CR)
                     && head == old(head).(text := head.text,
                            line := old(head).line.(versionLen := old(head).line.versionLen + (i - i0)))
    {
      hide Feed;
      i := i0;
      while i < max && src[i] != SP && src[i] != CR
        invariant At(i, max, goal) && i0 <= i
        invariant head == old(head).(text := head.text,
            line := old(head).line.(versionLen := old(head).line.versionLen + (i - i0)))
      {
        Pass(i, max, goal);
        i := i + 1;
        if head.mode == Bad {
          Failed(i, max, goal);
        }
        if !Printable(src[i - 1]) {
          return false, i;
        }
      }
      ok := true;
    }

    /** Status 6: the query. */
    method ReadQuery(i0: nat, max: nat, ghost goal: Head) returns (v: Verdict, i: nat, status: int)
      requires At(i0, max, goal) && Fits() && head.mode == Query
      modifies this`remote, this`tmp, this`head
      ensures Stage(v, i0, i, status, max, goal) && (v == Go ==> i0 < i || i == max)
    {
      hide Feed, VerbOf, To16, Step;
      var ok;
      ok, i := ScanQuery(i0, max, goal);
      if !ok {
        return Return(-1), i, 6;
      }
      To16Add(old(head).line.queryLen, i - i0);
      remote := remote.(queryLen := To16(remote.queryLen + (i - i0)));
      if i == max {
        return Go, i, 6;
      }
      v, i, status := LeaveQuery(i, max, goal);
    }

    method LeaveQuery(i0: nat, max: nat, ghost goal: Head) returns (v: Verdict, i: nat, status: int)
      requires At(i0, max, goal) && Fits() && head.mode == Query && i0 < max && src[i0] == SP
      modifies this`remote, this`tmp, this`head
      ensures Stage(v, i0, i, status, max, goal) && (v == Go ==> i0 < i)
    {
      hide Feed, VerbOf, To16, Step;
      StepBlank(head);
      Pass(i0, max, goal);
      v, i, status := ToVersion(i0 + 1, max, 6, goal);
    }

    static lemma StepBlank(h: Head)
      requires h.mode == Query || h.mode == Version
      ensures Step(h, SP) == h.(mode := if h.mode == Query then Gap else VersionGap, text := h.text + [SP])
    {}

    static lemma StepToTail(h: Head, c: byte)
      requires (h.mode == Version && c == CR) || (h.mode == VersionGap && c != SP)
      ensures Step(h.(mode := Tail), c) == Step(h, c)
    {}

    /** Behind the version: the end of the line, or blanks and more. */
    method LeaveVersion(i0: nat, max: nat, ghost goal: Head) returns (v: Verdict, i: nat, status: int)
      requires At(i0, max, goal) && Fits() && head.mode == Version && i0 < max && (src[i0] == SP || src[i0] == CR)
      modifies this`remote, this`tmp, this`head
      ensures Stage(v, i0, i, status, max, goal) && (v == Go ==> status == 8)
    {
      hide Feed, VerbOf, To16, Step;
      i := i0;
      if src[i] == SP {
        StepBlank(head);
        Pass(i, max, goal);
        var end;
        end, i := Escape(i + 1, max, goal);
        if end {
          remote := remote.(status := 7);
          tmp := i;
          return Return(1), i, 7;
        }
      }
      StepToTail(head, src[i]);
      View(i, max, goal, head.(mode := Tail));
      remote := remote.(tmpVar1 := 0);
      return Go, i, 8;
    }

    /** Status 7: the version, up to the end of the line or to blanks. */
    method ReadVersion(i0: nat, max: nat, ghost goal: Head) returns (v: Verdict, i: nat, status: int)
      requires At(i0, max, goal) && Fits() && head.mode == Version
      modifies this`remote, this`tmp, this`head
      ensures Stage(v, i0, i, status, max, goal) && (v == Go ==> i0 < i || i == max || status == 8)
    {
      hide Feed, VerbOf, To16, Step;
      var ok;
      ok, i := ScanVersion(i0, max, goal);
      if !ok {
        return Return(-1), i, 7;
      }
      To16Add(old(head).line.versionLen, i - i0);
      remote := remote.(versionLen := To16(remote.versionLen + (i - i0)));
      if i == max {
        return Go, i, 7;
      }
      v, i, status := LeaveVersion(i, max, goal);
    }

    /** _http_is_end_: a line feed must follow the carriage return. The byte behind the buffer's end is never asked
        for when the automaton does not end there in a mode that looks ahead. */
    method IsEnd(i0: nat, max: nat, status0: int, ghost goal: Head) returns (ok: bool, i: nat)
      requires At(i0, max, goal) && i0 < max && (head.mode == Tail || head.mode == BlankLine)
      requires src[i0] == CR || (head.mode == Tail && src[i0] == LF)
      requires !LooksAhead(goal.mode) && Fits()
      modifies this`remote, this`tmp, this`head
      ensures !ok ==> goal.mode == Bad
      ensures ok ==>
                && At(i + 1, max, goal)
                && Fits()
                && i0 < i
                && head.mode == (if old(head).mode == Tail then LineStart else Done)
    {
      hide Feed, VerbOf, To16;
      i := i0;
      if src[i] != CR {
        Pass(i, max, goal);
        Failed(i + 1, max, goal);
        remote := remote.(status := status0);
        tmp := i;
        return false, i;
      }
      remote := remote.(tmpVar1 := 1);
      Pass(i, max, goal);
      i := i + 1;
      if i == max {
        AtEnd(max, goal);
      }
      ok := src[i] == LF;
      Pass(i, max, goal);
      if !ok {
        Failed(i + 1, max, goal);
        remote := remote.(status := status0);
        tmp := i;
      }
    }

    method ScanTail(i0: nat, max: nat, ghost goal: Head) returns (i: nat)
      requires At(i0, max, goal) && head.mode == Tail
      modifies this`head
      ensures At(i, max, goal) && i0 <= i && (i < max ==> src[i] == CR || src[i] == LF)
      ensures head == old(head).(text := head.text)
    {
      hide Feed;
      i := i0;
      while i < max && src[i] != CR && src[i] != LF
        invariant At(i, max, goal) && i0 <= i && head == old(head).(text := head.text)
      {
        Pass(i, max, goal);
        i := i + 1;
      }
    }

    /** Status 8: whatever stands behind the version is skipped to the end of the line. */
    method ReadTail(i0: nat, max: nat, ghost goal: Head) returns (v: Verdict, i: nat)
      requires At(i0, max, goal) && Fits() && head.mode == Tail && !LooksAhead(goal.mode)
      modifies this`remote, this`tmp, this`head
      ensures Stage(v, i0, i, 9, max, goal) && (v == Go ==> i0 < i)
    {
      hide Feed, VerbOf, To16, Step, Linked;
      i := ScanTail(i0, max, goal);
      TailStill(remote, old(head), head, verbs);
      if i == max {
        AtEnd(max, goal);
      }
      var ok;
      ok, i := IsEnd(i, max, 8, goal);
      if !ok {
        return Return(-1), i;
      }
      return Go, i + 1;
    }

    /** Status 9: blanks before a header name. */
    method ReadLineStart(i0: nat, max: nat, ghost goal: Head) returns (v: Verdict, i: nat, status: int)
      requires At(i0, max, goal) && Fits() && head.mode == LineStart
      modifies this`remote, this`tmp, this`head
      ensures Stage(v, i0, i, status, max, goal) && (v == Go ==> status == 10)
    {
      hide Feed, VerbOf, To16;
      var end;
      end, i := Escape(i0, max, goal);
      if end {
        remote := remote.(status := 9);
        tmp := i;
        return Return(1), i, 9;
      }
      View(i, max, goal, head.(mode := Name, entry := head.entry.(nameAt := i, nameLen := 0)));
      remote := remote.(tmpVar1 := i, tmpVar2 := 0);
      return Go, i, 10;
    }

    /** _http_escape_right_: the length of a name without the blanks at its end. */
    method EscapeRight(start: nat, len0: nat) returns (len: nat)
      requires start + len0 <= src.Length
      ensures len == Trimmed(src[start..start + len0])
    {
      len := len0;
      while len > 0 && src[start + len - 1] == SP
        invariant len <= len0 && Trimmed(src[start..start + len]) == Trimmed(src[start..start + len0])
      {
        assert src[start..start + len][..len - 1] == src[start..start + len - 1];
        len := len - 1;
      }
    }

    method ScanName(i0: nat, max: nat, ghost goal: Head) returns (ok: bool, i: nat)
      requires At(i0, max, goal) && head.mode == Name
      modifies this`head, src
      ensures src[max..] == old(src[max..])
      ensures !ok ==> goal.mode == Bad
      ensures ok ==> At(i, max, goal) && i0 <= i && |head.text| == i && (i < max ==> src[i] == COLON || src[i] == CR)
                     && head == old(head).(text := head.text,
                            entry := old(head).entry.(nameLen := old(head).entry.nameLen + (i - i0)))
    {
      hide Feed;
      i := i0;
      while i < max && src[i] != COLON && src[i] != CR
        invariant At(i, max, goal) && i0 <= i && src[max..] == old(src[max..])
        invariant head == old(head).(text := head.text,
            entry := old(head).entry.(nameLen := old(head).entry.nameLen + (i - i0)))
      {
        if !Printable(src[i]) {
          Pass(i, max, goal);
          Failed(i + 1, max, goal);
          return false, i;
        }
        PassLower(i, max, goal);
        i := i + 1;
      }
      ok := true;
    }

    static lemma StepNameEnd(h: Head, c: byte)
      requires h.mode == Name && (c == COLON || c == CR)
      ensures c == COLON ==>
                Step(h, c) == h.(mode := AfterColon, text := h.text + [c],
                                 entry := h.entry.(nameLen := Trimmed(NameOf(h))))
      ensures c == CR && Trimmed(NameOf(h)) == 0 ==>
                Step(h.(mode := BlankLine, entry := h.entry.(nameLen := 0)), c) == Step(h, c)
      ensures c == CR && Trimmed(NameOf(h)) != 0 ==> Step(h, c).mode == Bad && Step(h, c).text == h.text + [c]
    {}

    /** Status 10: a header name, lowered in place, or the blank line that ends the head. */
    method ReadName(i0: nat, max: nat, ghost goal: Head) returns (v: Verdict, i: nat, status: int)
      requires At(i0, max, goal) && Fits() && head.mode == Name && |head.text| == i0
      modifies this`remote, this`tmp, this`head, src
      ensures src[max..] == old(src[max..])
      ensures Stage(v, i0, i, status, max, goal) && (v == Go ==> i0 < i || i == max || status == 14)
    {
      hide Feed, VerbOf, To16, Step, Trimmed;
      var ok;
      ok, i := ScanName(i0, max, goal);
      if !ok {
        return Return(-1), i, 10;
      }
      remote := remote.(tmpVar2 := remote.tmpVar2 + (i - i0));
      if i == max {
        return Go, i, 10;
      }
      v, i, status := LeaveName(i, max, goal);
    }

    /** The length of the name read, without blanks at its end. */
    method NameLength(i: nat, max: nat, ghost goal: Head) returns (len: nat)
      requires At(i, max, goal) && Fits() && head.mode == Name && |head.text| == i
      ensures len == Trimmed(NameOf(head)) && head.entry.nameAt + len <= i
    {
      hide Feed, VerbOf, To16, Trimmed, LinkedLine;
      assert src[remote.tmpVar1..remote.tmpVar1 + remote.tmpVar2] == NameOf(head) by {
        assert src[..i][remote.tmpVar1..] == src[remote.tmpVar1..i];
      }
      len := EscapeRight(remote.tmpVar1, remote.tmpVar2);
    }

    method LeaveName(i0: nat, max: nat, ghost goal: Head) returns (v: Verdict, i: nat, status: int)
      requires At(i0, max, goal) && Fits() && head.mode == Name && |head.text| == i0 < max
      requires src[i0] == COLON || src[i0] == CR
      modifies this`remote, this`head
      ensures Stage(v, i0, i, status, max, goal) && (v == Go ==> i0 < i || status == 14)
    {
      hide Feed, VerbOf, To16, Step, Trimmed, NameOf;
      i := i0;
      var len := NameLength(i, max, goal);
      remote := remote.(tmpVar2 := len);
      StepNameEnd(head, src[i]);
      if src[i] == COLON {
        Pass(i, max, goal);
        return Go, i + 1, 11;
      }
      if remote.tmpVar2 != 0 {
        Pass(i, max, goal);
        Failed(i + 1, max, goal);
        return Return(-1), i, 10;
      }
      remote := remote.(tmpVar1 := 0);
      View(i, max, goal, head.(mode := BlankLine, entry := head.entry.(nameLen := 0)));
      return Go, i, 14;
    }

    /** Status 11: blanks before a header value. */
    method ReadAfterColon(i0: nat, max: nat, ghost goal: Head) returns (v: Verdict, i: nat, status: int)
      requires At(i0, max, goal) && Fits() && head.mode == AfterColon
      modifies this`remote, this`tmp, this`head
      ensures Stage(v, i0, i, status, max, goal) && (v == Go ==> status == 12)
    {
      hide Feed, VerbOf, To16, NameOf;
      var end;
      end, i := Escape(i0, max, goal);
      if end {
        remote := remote.(status := 11);
        tmp := i;
        return Return(1), i, 11;
      }
      StepToValue(head, src[i]);
      View(i, max, goal, head.(mode := Value, entry := head.entry.(valueAt := i, valueLen := 0)));
      remote := remote.(tmpVar3 := i, tmpVar4 := 0);
      return Go, i, 12;
    }

    static lemma StepToValue(h: Head, c: byte)
      requires h.mode == AfterColon && c != SP
      ensures Step(h.(mode := Value, entry := h.entry.(valueAt := |h.text|, valueLen := 0)), c) == Step(h, c)
    {
      var e := h.entry.(valueAt := |h.text|, valueLen := 0);
      assert NameOf(h.(mode := Value, entry := e)) == NameOf(h.(entry := e));
    }

    static lemma StepValueEnd(h: Head)
      requires h.mode == Value
      ensures Step(h.(mode := Tail, entry := Entered(h)), CR) == Step(h, CR)
    {}

    method ScanValue(i0: nat, max: nat, ghost goal: Head) returns (i: nat)
      requires At(i0, max, goal) && head.mode == Value
      modifies this`head
      ensures At(i, max, goal) && i0 <= i && |head.text| == i && (i < max ==> src[i] == CR)
      ensures head == old(head).(text := head.text,
          entry := old(head).entry.(valueLen := old(head).entry.valueLen + (i - i0)))
    {
      hide Feed, NameOf;
      i := i0;
      while i < max && src[i] != CR
        invariant At(i, max, goal) && i0 <= i
        invariant head == old(head).(text := head.text,
            entry := old(head).entry.(valueLen := old(head).entry.valueLen + (i - i0)))
      {
        Pass(i, max, goal);
        i := i + 1;
      }
    }

    /** Status 12: a header value; its position is entered under the name. */
    method ReadValue(i0: nat, max: nat, ghost goal: Head) returns (v: Verdict, i: nat, status: int)
      requires At(i0, max, goal) && Fits() && head.mode == Value && |head.text| == i0
      modifies this`remote, this`head
      ensures Stage(v, i0, i, status, max, goal) && v == Go && (i0 < i || i == max || status == 13)
    {
      hide Feed, VerbOf, To16, Step, NameOf;
      i := ScanValue(i0, max, goal);
      remote := remote.(tmpVar4 := remote.tmpVar4 + (i - i0));
      if i == max {
        return Go, i, 12;
      }
      EnterValue(i, max, goal);
      return Go, i, 13;
    }

    method EnterValue(i: nat, max: nat, ghost goal: Head)
      requires At(i, max, goal) && Fits() && head.mode == Value && |head.text| == i < max && src[i] == CR
      modifies this`remote, this`head
      ensures At(i, max, goal) && Fits() && head.mode == Tail
    {
      hide Feed, VerbOf, To16, Step;
      assert src[remote.tmpVar1..remote.tmpVar1 + remote.tmpVar2] == NameOf(head) by {
        assert src[..i][remote.tmpVar1..remote.tmpVar1 + remote.tmpVar2]
            == src[remote.tmpVar1..remote.tmpVar1 + remote.tmpVar2];
      }
      StepValueEnd(head);
      var entry := Entry(remote.tmpVar4, remote.tmpVar3);
      var name := src[remote.tmpVar1..remote.tmpVar1 + remote.tmpVar2];
      remote := remote.(headerIndexs := remote.headerIndexs[name := entry], tmpVar1 := 0);
      View(i, max, goal, head.(mode := Tail, entry := Entered(head)));
    }

    /** Status 13: the end of a header line. */
    method ReadLineEnd(i0: nat, max: nat, ghost goal: Head) returns (v: Verdict, i: nat)
      requires At(i0, max, goal) && Fits() && head.mode == Tail && i0 < max && src[i0] == CR && !LooksAhead(goal.mode)
      modifies this`remote, this`tmp, this`head
      ensures Stage(v, i0, i, 9, max, goal) && (v == Go ==> i0 < i)
    {
      hide Feed, VerbOf, To16, Step, Linked;
      var ok;
      ok, i := IsEnd(i0, max, 13, goal);
      if !ok {
        return Return(-1), i;
      }
      return Go, i + 1;
    }

    /** Where a call may begin: at the start, or where an earlier call stopped in a mode its fields can carry. */
    ghost predicate Saved()
      reads this, src
    {
      && tmp <= src.Length && src[..tmp] == head.text && Fits()
      && ((head == Start() && tmp == 0 && remote.status == 0)
          || (Resumable(head.mode) && remote.status == StatusOf(head.mode)))
    }

    /** One pass through the switch on the status. */
    method ReadNext(i0: nat, max: nat, status0: int, ghost goal: Head) returns (v: Verdict, i: nat, status: int)
      requires At(i0, max, goal) && Fits() && Ready(status0, i0, max) && i0 < max && !LooksAhead(goal.mode)
      requires status0 != 14
      modifies this`remote, this`tmp, this`head, src
      ensures Stage(v, i0, i, status, max, goal) && src[max..] == old(src[max..])
      ensures v == Go ==> i0 < i || i == max || status > status0
    {
      hide Feed, VerbOf, To16, Step, Linked, Trimmed, NameOf;
      ReadCount(i0, max, goal);
      if status0 == 0 {
        v, i := ReadVerb(max, goal);
        status := if v == Go then 1 else 0;
      } else if status0 == 1 || status0 == 3 {
        v, i, status := ReadPath(i0, max, status0, goal);
      } else if status0 == 6 {
        v, i, status := ReadQuery(i0, max, goal);
      } else if status0 == 7 {
        v, i, status := ReadVersion(i0, max, goal);
      } else if status0 == 8 {
        v, i := ReadTail(i0, max, goal);
        status := 9;
      } else if status0 == 9 {
        v, i, status := ReadLineStart(i0, max, goal);
      } else if status0 == 10 {
        v, i, status := ReadName(i0, max, goal);
      } else if status0 == 11 {
        v, i, status := ReadAfterColon(i0, max, goal);
      } else if status0 == 12 {
        v, i, status := ReadValue(i0, max, goal);
      } else {
        v, i := ReadLineEnd(i0, max, goal);
        status := 9;
      }
    }

    lemma ReadCount(i: nat, max: nat, goal: Head)
      requires At(i, max, goal)
      ensures |head.text| == i
    {}

    /** Status 14: the blank line, and the parser's answer. */
    method Finish(i0: nat, max: nat, ghost goal: Head) returns (r: int)
      requires At(i0, max, goal) && Fits() && head.mode == BlankLine && i0 < max && src[i0] == CR
      requires !LooksAhead(goal.mode)
      modifies this`remote, this`tmp, this`head
      ensures if r == -1 then goal.mode == Bad
              else && goal.mode == Done && r == (if VerbOf(goal.line.word, verbs) == 0 then -2 else 0)
                   && head == goal && Fits() && remote.headerLen == |goal.text| <= max
                   && src[..|goal.text|] == goal.text
    {
      hide Feed, VerbOf, To16, Step;
      var ok, i := IsEnd(i0, max, 14, goal);
      if !ok {
        return -1;
      }
      FeedOver(head, src[i + 1..max]);
      remote := remote.(headerLen := i + 1);
      if 0 == remote.verb {
        return -2;
      }
      remote := remote.(status := 20);
      return 0;
    }

    /** What a call answers and leaves behind, when `goal` is the automaton's state. */
    ghost predicate Answers(r: int, max: nat, goal: Head)
      reads this, src
    {
      && (r == -1 <==> goal.mode == Bad)
      && (r == 1 <==> !Over(goal))
      && (goal.mode == Done ==> r == if VerbOf(goal.line.word, verbs) == 0 then -2 else 0)
      && (goal.mode != Bad ==> head == goal && |goal.text| <= max <= src.Length && src[..|goal.text|] == goal.text)
      && (goal.mode == Done ==> Fits() && remote.headerLen == |goal.text|)
      && (Resumable(goal.mode) ==> Saved() && tmp == max)
    }

    lemma Stopped(v: Verdict, i0: nat, i: nat, status: int, max: nat, goal: Head)
      requires Stage(v, i0, i, status, max, goal) && v.Return?
      ensures Answers(v.code, max, goal)
    {
      hide Linked, Feed;
    }

    /** The buffer is used up between two stages. */
    method CodeEnd(max: nat, status: int, ghost goal: Head)
      requires At(max, max, goal) && Fits() && Ready(status, max, max) && !LooksAhead(goal.mode)
      modifies this`tmp, this`remote
      ensures Answers(1, max, goal)
    {
      hide Feed, VerbOf, To16;
      AtEnd(max, goal);
      tmp := max;
      remote := remote.(status := status);
    }

    /** hc_http_quick_check on a buffer filled up to `max`: its answer and its fields are what the automaton makes of
        the bytes since the last call. */
    method QuickCheck(max: nat) returns (r: int)
      requires Saved() && tmp <= max <= src.Length
      requires !LooksAhead(Feed(head, src[tmp..max]).mode)
      modifies this`remote, this`tmp, this`head, src
      ensures Answers(r, max, Feed(old(head), old(src[tmp..max])))
      ensures src[max..] == old(src[max..])
    {
      hide Feed, HeadParser.Answers, Linked, LooksAhead;
      ghost var goal := Feed(head, src[tmp..max]);
      r := ReadAll(tmp, remote.status, max, goal);
    }

    method ReadAll(i0: nat, status0: int, max: nat, ghost goal: Head) returns (r: int)
      requires At(i0, max, goal) && Fits() && Ready(status0, i0, max) && !LooksAhead(goal.mode)
      modifies this`remote, this`tmp, this`head, src
      ensures Answers(r, max, goal) && src[max..] == old(src[max..])
    {
      hide Feed, VerbOf, To16, Step, Linked;
      var i, status := i0, status0;
      while i < max
        invariant At(i, max, goal) && Fits() && Ready(status, i, max) && src[max..] == old(src[max..])
        decreases max - i, 20 - status
      {
        if status == 14 {
          r := Finish(i, max, goal);
          return;
        }
        var v;
        ghost var from := i;
        v, i, status := ReadNext(i, max, status, goal);
        if v != Go {
          Stopped(v, from, i, status, max, goal);
          return v.code;
        }
      }
      CodeEnd(max, status, goal);
      return 1;
    }
  }
}
