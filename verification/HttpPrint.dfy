/** Printing a request head, and what the parser of HttpHead makes of what was printed. */
module HttpPrint {
  import opened Bytes
  import opened HttpHead

  /** The header index keeps a name's length in 8 bits and reads it back as a signed char when it grows. */
  const MAX_NAME: nat := 127

  /** Blanks may stand before and behind a name, and behind its colon. */
  datatype Field = Field(name: seq<byte>, value: seq<byte>, lead: nat, gap: nat, after: nat)

  function Blank(n: nat): (s: seq<byte>)
    ensures |s| == n
    ensures forall i :: 0 <= i < n ==> s[i] == SP
  {
    seq(n, _ => SP)
  }

  /** Further blanks may stand before the version, and text that nobody reads behind it. */
  datatype Request = Request(verb: seq<byte>, path: seq<byte>, hasQuery: bool, query: seq<byte>, gap: nat,
                             version: seq<byte>, trail: seq<byte>, fields: seq<Field>)

  predicate NoBlank(s: seq<byte>) {
    forall i :: 0 <= i < |s| ==> Printable(s[i]) && s[i] != SP
  }

  predicate WellFormedField(f: Field) {
    && 0 < |f.name| <= MAX_NAME && (forall i :: 0 <= i < |f.name| ==> Printable(f.name[i]) && f.name[i] != COLON)
    && f.name[0] != SP && f.name[|f.name| - 1] != SP
    && CR !in f.value && (f.value == [] || f.value[0] != SP)
  }

  predicate WellFormed(r: Request) {
    && r.verb != [] && (forall i :: 0 <= i < |r.verb| ==> Letter(r.verb[i]))
    && r.path != [] && r.path[0] == SLASH && PathText(r.path)
    && NoBlank(r.query) && r.version != [] && NoBlank(r.version)
    && (r.trail != [] ==> r.trail[0] == SP && CR !in r.trail && LF !in r.trail)
    && forall k :: 0 <= k < |r.fields| ==> WellFormedField(r.fields[k])
  }

  function FieldText(f: Field): seq<byte> {
    Blank(f.lead) + f.name + Blank(f.gap) + [COLON] + Blank(f.after) + f.value + [CR, LF]
  }

  /** Where the value begins in its line. */
  function ValueStart(f: Field): nat {
    f.lead + |f.name| + f.gap + 1 + f.after
  }

  function FieldsText(fields: seq<Field>): seq<byte> {
    if fields == [] then [] else FieldText(fields[0]) + FieldsText(fields[1..])
  }

  function Target(r: Request): seq<byte> {
    r.path + if r.hasQuery then [QUESTION] + r.query else []
  }

  function Line(r: Request): seq<byte> {
    r.verb + [SP] + Target(r) + [SP] + Blank(r.gap) + r.version + r.trail + [CR, LF]
  }

  function Print(r: Request): seq<byte> {
    Line(r) + FieldsText(r.fields) + [CR, LF]
  }

  /** What the parser should find: the entry of a name is that of the last field with that name. */
  ghost function Entries(fields: seq<Field>, at: nat, index: map<seq<byte>, nat>): map<seq<byte>, nat>
    decreases |fields|
  {
    if fields == [] then index
    else
      var f := fields[0];
      Entries(fields[1..], at + |FieldText(f)|, index[LowerAll(f.name) := Entry(|f.value|, at + ValueStart(f))])
  }

  /** The request-line part of a head. */
  ghost predicate SameLine(a: Head, b: Head) {
    && a.line == b.line
    && |a.text| >= |b.text| && a.text[..|b.text|] == b.text
  }

  lemma {:induction false} TrimsBlanks(s: seq<byte>, n: nat)
    requires s != [] && s[|s| - 1] != SP
    ensures Trimmed(s + Blank(n)) == |s|
    decreases n
  {
    if n == 0 {
      assert s + Blank(0) == s;
    } else {
      assert (s + Blank(n))[..|s| + n - 1] == s + Blank(n - 1);
      TrimsBlanks(s, n - 1);
    }
  }

  lemma StepNameStart(h: Head, c: byte)
    requires h.mode == LineStart && Printable(c) && c != SP && c != COLON
    ensures Step(h, c) == h.(mode := Name, text := h.text + [Lower(c)],
                             entry := h.entry.(nameAt := |h.text|, nameLen := 1))
  {}

  /** Blanks where they are skipped. */
  lemma {:induction false} FeedBlanks(h: Head, n: nat)
    requires h.mode == LineStart || h.mode == AfterColon || h.mode == Gap
    ensures Feed(h, Blank(n)) == h.(text := h.text + Blank(n))
    decreases n
  {
    if n == 0 {
      FeedNothing(h);
      assert h.text + Blank(0) == h.text;
    } else {
      assert Blank(n)[1..] == Blank(n - 1) && Blank(n) == [SP] + Blank(n - 1);
      FeedBlanks(Step(h, SP), n - 1);
      assert h.text + [SP] + Blank(n - 1) == h.text + Blank(n);
    }
  }

  predicate NameText(name: seq<byte>) {
    && name != [] && name[0] != SP
    && forall i :: 0 <= i < |name| ==> Printable(name[i]) && name[i] != COLON
  }

  lemma FeedWholeName(h: Head, name: seq<byte>)
    requires h.mode == LineStart && NameText(name)
    ensures Feed(h, name) == h.(mode := Name, text := h.text + LowerAll(name),
                                entry := h.entry.(nameAt := |h.text|, nameLen := |name|))
    ensures NameOf(Feed(h, name)) == LowerAll(name)
  {
    hide Step, Feed, LowerAll, Lower;
    FeedFirst(h, name);
    StepNameStart(h, name[0]);
    FeedName(Step(h, name[0]), name[1..]);
    LowerMore(h.text, name);
  }

  lemma FeedColon(h: Head, name: seq<byte>, gap: nat)
    requires h.mode == Name && name != [] && name[|name| - 1] != SP && NameOf(h) == name + Blank(gap)
    ensures Feed(h, [COLON])
         == h.(mode := AfterColon, text := h.text + [COLON], entry := h.entry.(nameLen := |name|))
  {
    hide Trimmed, NameOf;
    TrimsBlanks(name, gap);
    FeedOne(h, COLON);
  }

  lemma LowerBlanks(name: seq<byte>, gap: nat)
    ensures LowerAll(name + Blank(gap)) == LowerAll(name) + Blank(gap)
  {}

  lemma NameCut(h: Head, name: seq<byte>, gap: nat)
    requires h.entry.nameAt + |name| + gap <= |h.text| && h.entry.nameLen == |name|
    requires h.text[h.entry.nameAt..h.entry.nameAt + |name| + gap] == name + Blank(gap)
    ensures NameOf(h) == name
  {
    var n := h.entry.nameAt;
    assert h.text[n..n + |name|] == h.text[n..n + |name| + gap][..|name|];
  }

  lemma NameUpToColon(f: Field)
    requires WellFormedField(f)
    ensures NameText(f.name + Blank(f.gap))
  {}

  /** A field up to its value. */
  lemma FeedFieldName(h: Head, f: Field)
    requires h.mode == LineStart && WellFormedField(f)
    ensures var r := Feed(h, Blank(f.lead) + (f.name + Blank(f.gap)) + [COLON] + Blank(f.after));
            && r == h.(mode := AfterColon, text := r.text,
                       entry := h.entry.(nameAt := |h.text| + f.lead, nameLen := |f.name|))
            && r.text == h.text + Blank(f.lead) + LowerAll(f.name + Blank(f.gap)) + [COLON] + Blank(f.after)
            && NameOf(r) == LowerAll(f.name)
  {
    hide Step, Feed, NameText, LowerAll, NameOf;
    var whole := f.name + Blank(f.gap);
    NameUpToColon(f);
    FeedBlanks(h, f.lead);
    var a := Feed(h, Blank(f.lead));
    FeedPieces(h, Blank(f.lead), whole);
    FeedWholeName(a, whole);
    var b := Feed(a, whole);
    LowerBlanks(f.name, f.gap);
    LowerEnd(f.name);
    FeedColon(b, LowerAll(f.name), f.gap);
    FeedPieces(h, Blank(f.lead) + whole, [COLON]);
    var c := Feed(b, [COLON]);
    FeedBlanks(c, f.after);
    FeedPieces(h, Blank(f.lead) + whole + [COLON], Blank(f.after));
    var r := Feed(c, Blank(f.after));
    NameThere(r, a.text, LowerAll(whole), [COLON] + Blank(f.after));
    NameCut(r, LowerAll(f.name), f.gap);
  }

  lemma NameThere(r: Head, before: seq<byte>, name: seq<byte>, rest: seq<byte>)
    requires rest != [] && rest[0] == COLON && r.text == before + name + [COLON] + rest[1..]
    ensures r.text[|before|..|before| + |name|] == name
  {}

  lemma LowerFirstByte(name: seq<byte>)
    requires name != [] && name[0] != SP
    ensures LowerAll(name) != [] && LowerAll(name)[0] != SP
  {}

  lemma LowerEnd(name: seq<byte>)
    requires name != [] && name[|name| - 1] != SP
    ensures LowerAll(name) != [] && LowerAll(name)[|LowerAll(name)| - 1] != SP
  {}

  lemma FeedValueText(h: Head, value: seq<byte>)
    requires h.mode == AfterColon && CR !in value && value != [] && value[0] != SP
    ensures Feed(h, value) == h.(mode := Value, text := h.text + value, entry := h.entry.(valueAt := |h.text|,
                                                                                          valueLen := |value|))
  {
    hide Feed;
    FeedFirst(h, value);
    FeedValue(Step(h, value[0]), value[1..]);
    assert h.text + [value[0]] + value[1..] == h.text + value;
  }

  lemma FeedValueEnd(h: Head)
    requires h.mode == Value || (h.mode == AfterColon && h.entry.valueAt == |h.text| && h.entry.valueLen == 0)
    ensures Feed(h, [CR, LF])
         == h.(mode := LineStart, text := h.text + [CR, LF],
               entry := h.entry.(index := h.entry.index[NameOf(h) := Entry(h.entry.valueLen, h.entry.valueAt)]))
  {
    hide Feed, NameOf;
    FeedFirst(h, [CR, LF]);
    assert [CR, LF][1..] == [LF];
    var a := Step(h, CR);
    if h.mode == AfterColon {
      assert h.entry.(valueAt := |h.text|, valueLen := 0) == h.entry;
      assert h.(entry := h.entry.(valueAt := |h.text|, valueLen := 0)) == h;
    }
    FeedOne(a, LF);
    assert h.text + [CR] + [LF] == h.text + [CR, LF];
  }

  lemma FeedFieldValue(h: Head, value: seq<byte>)
    requires h.mode == AfterColon && CR !in value && (value == [] || value[0] != SP)
    requires h.entry.nameAt + h.entry.nameLen <= |h.text|
    ensures Feed(h, value + [CR, LF])
         == h.(mode := LineStart, text := h.text + value + [CR, LF],
               entry := h.entry.(valueAt := |h.text|, valueLen := |value|,
                                 index := h.entry.index[NameOf(h) := Entry(|value|, |h.text|)]))
  {
    hide Feed, Step, NameOf;
    var e := h.entry.(valueAt := |h.text|, valueLen := |value|);
    if value == [] {
      EmptyValue(h);
      assert value + [CR, LF] == [CR, LF] && h.text + value == h.text;
    } else {
      var b := h.(mode := Value, text := h.text + value, entry := e);
      FeedValueText(h, value);
      FeedPieces(h, value, [CR, LF]);
      FeedValueEnd(b);
      NameOfPrefix(h, b);
    }
  }

  lemma EmptyValue(h: Head)
    requires h.mode == AfterColon && h.entry.nameAt + h.entry.nameLen <= |h.text|
    ensures Feed(h, [CR, LF])
         == h.(mode := LineStart, text := h.text + [CR, LF],
               entry := h.entry.(valueAt := |h.text|, valueLen := 0,
                   index := h.entry.index[NameOf(h) := Entry(0, |h.text|)]))
  {
    hide Feed, NameOf;
    var b := h.(entry := h.entry.(valueAt := |h.text|, valueLen := 0));
    FeedFirst(h, [CR, LF]);
    FeedFirst(b, [CR, LF]);
    FeedValueEnd(b);
    NameOfPrefix(h, b);
  }

  lemma NameOfPrefix(h: Head, b: Head)
    requires b.entry.nameAt == h.entry.nameAt && b.entry.nameLen == h.entry.nameLen
    requires h.entry.nameAt + h.entry.nameLen <= |h.text|
    requires |h.text| <= |b.text| && b.text[..|h.text|] == h.text
    ensures NameOf(b) == NameOf(h)
  {
    assert b.text[h.entry.nameAt..h.entry.nameAt + h.entry.nameLen]
        == b.text[..|h.text|][h.entry.nameAt..h.entry.nameAt + h.entry.nameLen];
  }

  lemma FeedField(h: Head, f: Field)
    requires h.mode == LineStart && WellFormedField(f)
    ensures var r := Feed(h, FieldText(f));
            && r.mode == LineStart && |r.text| == |h.text| + |FieldText(f)| && SameLine(r, h)
            && r.entry.index == h.entry.index[LowerAll(f.name) := Entry(|f.value|, |h.text| + ValueStart(f))]
            && r.text[|h.text| + ValueStart(f)..][..|f.value|] == f.value
  {
    hide Step, Feed, LowerAll, Entry, NameOf;
    var front := Blank(f.lead) + (f.name + Blank(f.gap)) + [COLON] + Blank(f.after);
    FeedFieldName(h, f);
    var a := Feed(h, front);
    FeedFieldValue(a, f.value);
    assert FieldText(f) == front + (f.value + [CR, LF]);
    FeedPieces(h, front, f.value + [CR, LF]);
  }

  /** Every field is entered with the position of its value, a later one with the same name in place of an earlier. */
  lemma {:induction false} FeedFields(h: Head, fields: seq<Field>)
    requires h.mode == LineStart && forall k :: 0 <= k < |fields| ==> WellFormedField(fields[k])
    ensures var r := Feed(h, FieldsText(fields));
            && r.mode == LineStart && |r.text| == |h.text| + |FieldsText(fields)| && SameLine(r, h)
            && r.entry.index == Entries(fields, |h.text|, h.entry.index)
    decreases |fields|
  {
    hide Step, Feed, FieldText, FieldsText, Entries, WellFormedField, SameLine, LowerAll, Entry;
    if fields == [] {
      NoFields(h);
    } else {
      UnfoldFields(fields, |h.text|, h.entry.index);
      FeedField(h, fields[0]);
      var a := Feed(h, FieldText(fields[0]));
      FeedFields(a, fields[1..]);
      FeedPieces(h, FieldText(fields[0]), FieldsText(fields[1..]));
      SameLineChain(Feed(a, FieldsText(fields[1..])), a, h);
    }
  }

  lemma NoFields(h: Head)
    ensures Feed(h, FieldsText([])) == h && FieldsText([]) == [] && SameLine(h, h)
    ensures Entries([], |h.text|, h.entry.index) == h.entry.index
  {
    FeedNothing(h);
  }

  lemma UnfoldFields(fields: seq<Field>, at: nat, index: map<seq<byte>, nat>)
    requires fields != []
    ensures FieldsText(fields) == FieldText(fields[0]) + FieldsText(fields[1..])
    ensures Entries(fields, at, index)
         == Entries(fields[1..], at + |FieldText(fields[0])|,
                    index[LowerAll(fields[0].name) := Entry(|fields[0].value|, at + ValueStart(fields[0]))])
  {}

  lemma SameLineChain(c: Head, b: Head, a: Head)
    requires SameLine(c, b) && SameLine(b, a)
    ensures SameLine(c, a)
  {
    assert c.text[..|a.text|] == c.text[..|b.text|][..|a.text|];
  }

  ghost predicate Unnamed(fields: seq<Field>, name: seq<byte>) {
    forall k :: 0 <= k < |fields| ==> LowerAll(fields[k].name) != name
  }

  lemma {:induction false} OtherNames(fields: seq<Field>, at: nat, index: map<seq<byte>, nat>, name: seq<byte>)
    requires Unnamed(fields, name)
    ensures name in Entries(fields, at, index) <==> name in index
    ensures name in index ==> Entries(fields, at, index)[name] == index[name]
    decreases |fields|
  {
    if fields != [] {
      var f := fields[0];
      assert Unnamed(fields[1..], name);
      OtherNames(fields[1..], at + |FieldText(f)|, index[LowerAll(f.name) := Entry(|f.value|, at + ValueStart(f))],
                 name);
    }
  }

  /** The last field with a name decides its entry. */
  lemma {:induction false} LastFieldCounts(fields: seq<Field>, k: nat, at: nat, index: map<seq<byte>, nat>)
    requires k < |fields| && Unnamed(fields[k + 1..], LowerAll(fields[k].name))
    ensures var name := LowerAll(fields[k].name);
            && name in Entries(fields, at, index)
            && Entries(fields, at, index)[name] ==
                   Entry(|fields[k].value|, at + |FieldsText(fields[..k])| + ValueStart(fields[k]))
    decreases k
  {
    hide FieldText, Entry;
    var f := fields[0];
    var index' := index[LowerAll(f.name) := Entry(|f.value|, at + ValueStart(f))];
    if k == 0 {
      assert fields[..0] == [];
      OtherNames(fields[1..], at + |FieldText(f)|, index', LowerAll(f.name));
    } else {
      var rest := fields[1..];
      assert rest[k - 1] == fields[k] && rest[k..] == fields[k + 1..];
      assert fields[..k][0] == f && fields[..k][1..] == rest[..k - 1];
      LastFieldCounts(rest, k - 1, at + |FieldText(f)|, index');
    }
  }

  /** Where the parser says the value is, the buffer still holds it. */
  lemma {:induction false} ValueInPlace(h: Head, fields: seq<Field>, k: nat)
    requires h.mode == LineStart && k < |fields| && forall i :: 0 <= i < |fields| ==> WellFormedField(fields[i])
    ensures var r := Feed(h, FieldsText(fields));
            var at := |h.text| + |FieldsText(fields[..k])| + ValueStart(fields[k]);
            at + |fields[k].value| <= |r.text| && r.text[at..at + |fields[k].value|] == fields[k].value
    decreases k
  {
    hide Step, Feed, FieldText, WellFormedField;
    FeedField(h, fields[0]);
    var a := Feed(h, FieldText(fields[0]));
    FeedFields(a, fields[1..]);
    FeedPieces(h, FieldText(fields[0]), FieldsText(fields[1..]));
    var r := Feed(a, FieldsText(fields[1..]));
    if k == 0 {
      var at := |h.text| + ValueStart(fields[0]);
      FieldLength(fields[0]);
      assert fields[..0] == [];
      assert r.text[at..at + |fields[0].value|] == r.text[..|a.text|][at..][..|fields[0].value|];
    } else {
      ValueInPlace(a, fields[1..], k - 1);
      assert fields[..k][0] == fields[0] && fields[..k][1..] == fields[1..][..k - 1];
    }
  }

  lemma FieldLength(f: Field)
    ensures |FieldText(f)| == ValueStart(f) + |f.value| + 2
  {}

  // ---------------------------------------------------------------------------
  // The request line
  // ---------------------------------------------------------------------------

  /** The path from the last of its leading slashes on. */
  function Rooted(path: seq<byte>): (n: int) {
    |path| - (Slashes(path) - 1)
  }

  /** How much of it is kept: a slash at the end goes, except that of the path "/" before a blank. */
  function Kept(path: seq<byte>, hasQuery: bool): int {
    if path != [] && path[|path| - 1] == SLASH && (if hasQuery then To16(Rooted(path)) != 0 else To16(Rooted(path)) > 1)
    then Rooted(path) - 1 else Rooted(path)
  }

  lemma SlashesWithin(path: seq<byte>)
    requires path != [] && path[0] == SLASH
    ensures 1 <= Slashes(path) <= |path|
  {}

  /** The parser's state when all of the path has been read. */
  function AtPathEnd(h: Head, path: seq<byte>): Head
    requires 1 <= Slashes(path) <= |path|
  {
    var g := h.(text := h.text + path, line := h.line.(pathAt := |h.text| + Slashes(path) - 1));
    if Slashes(path) == |path| then g.(mode := Slash) else g.(mode := Path, line := g.line.(pathLen := Rooted(path)))
  }

  /** The first byte after the slashes. */
  lemma LeaveSlashes(h: Head, c: byte)
    requires h.mode == Slash && |h.text| == h.line.pathAt + 1 && Printable(c) && c != SLASH && c != SP && c != QUESTION
    ensures Step(h, c) == h.(mode := Path, text := h.text + [c], line := h.line.(pathLen := 2))
  {}

  lemma FeedAfterSlashes(a: Head, rest: seq<byte>)
    requires a.mode == Slash && |a.text| == a.line.pathAt + 1 && rest != [] && rest[0] != SLASH && PathText(rest)
    ensures Feed(a, rest) == a.(mode := Path, text := a.text + rest, line := a.line.(pathLen := 1 + |rest|))
  {
    hide Feed, Step;
    FeedFirst(a, rest);
    LeaveSlashes(a, rest[0]);
    FeedPath(Step(a, rest[0]), rest[1..]);
    assert a.text + [rest[0]] + rest[1..] == a.text + rest;
  }

  lemma FeedSplitPath(h: Head, slashes: seq<byte>, rest: seq<byte>)
    requires h.mode == Skip && slashes != [] && (forall i :: 0 <= i < |slashes| ==> slashes[i] == SLASH)
    requires rest != [] && rest[0] != SLASH && PathText(rest)
    ensures Feed(h, slashes + rest)
         == h.(mode := Path, text := h.text + (slashes + rest), line := h.line.(pathAt := |h.text| + |slashes| - 1,
                                                                                pathLen := 1 + |rest|))
  {
    hide Feed, Step;
    FeedSlashes(h, slashes);
    FeedPieces(h, slashes, rest);
    FeedAfterSlashes(Feed(h, slashes), rest);
    assert h.text + slashes + rest == h.text + (slashes + rest);
  }

  lemma FeedWholePath(h: Head, path: seq<byte>)
    requires h.mode == Skip && path != [] && path[0] == SLASH && PathText(path)
    ensures 1 <= Slashes(path) <= |path| && Feed(h, path) == AtPathEnd(h, path)
  {
    hide Feed, Step;
    SlashesWithin(path);
    var n := Slashes(path);
    if n < |path| {
      assert path == path[..n] + path[n..];
      FeedSplitPath(h, path[..n], path[n..]);
    } else {
      FeedSlashes(h, path);
    }
  }

  lemma FeedNothing(h: Head)
    ensures Feed(h, []) == h
  {}

  lemma StepPathEnd(g: Head, len: int, c: byte, slash: bool)
    requires c == SP || c == QUESTION
    requires (g.mode == Slash && len == |g.text| - g.line.pathAt) || (g.mode == Path && len == g.line.pathLen)
    requires slash == AfterSlash(g)
    ensures var r := Step(g, c);
            && r.text == g.text + [c] && r.line.pathAt == g.line.pathAt
            && r.line.pathLen
               == len - (if slash && (if c == QUESTION then To16(len) != 0 else To16(len) > 1) then 1 else 0)
            && r.line.word == g.line.word && r.line.versionLen == g.line.versionLen && r.entry.index == g.entry.index
            && (c == SP ==> r.mode == Gap && r.line.queryAt == g.line.queryAt && r.line.queryLen == g.line.queryLen)
            && (c == QUESTION ==>
                  r.mode == Query && r.line.queryAt == |g.text| + 1 && r.line.queryLen == g.line.queryLen)
  {
    hide To16;
    if g.mode == Slash {
      assert AfterSlash(g.(line := g.line.(pathLen := len))) == slash;
      assert Step(g, c) == StepPath(g.(line := g.line.(pathLen := len)), c);
    }
  }

  lemma PathEndFacts(h: Head, path: seq<byte>)
    requires 1 <= Slashes(path) <= |path|
    ensures var g := AtPathEnd(h, path);
            && g == h.(mode := g.mode, text := h.text + path, line := h.line.(pathAt := |h.text| + Slashes(path) - 1,
                                                                              pathLen := g.line.pathLen))
            && ((g.mode == Slash && Rooted(path) == |g.text| - g.line.pathAt) ||
                   (g.mode == Path && Rooted(path) == g.line.pathLen))
            && AfterSlash(g) == (path[|path| - 1] == SLASH)
  {
    hide Slashes;
    var g := AtPathEnd(h, path);
    assert g.text[|g.text| - 1] == path[|path| - 1];
  }

  lemma EndPath(h: Head, path: seq<byte>, c: byte)
    requires 1 <= Slashes(path) <= |path| && (c == SP || c == QUESTION)
    ensures var r := Step(AtPathEnd(h, path), c);
            && r.text == h.text + path + [c] && r.line.pathAt == |h.text| + Slashes(path) - 1
            && r.line.pathLen == Kept(path, c == QUESTION)
            && r.line.word == h.line.word && r.line.versionLen == h.line.versionLen && r.entry.index == h.entry.index
            && (c == SP ==> r.mode == Gap && r.line.queryAt == h.line.queryAt && r.line.queryLen == h.line.queryLen)
            && (c == QUESTION ==>
                  r.mode == Query && r.line.queryAt == |h.text| + |path| + 1 && r.line.queryLen == h.line.queryLen)
  {
    hide Slashes, To16, Step, AtPathEnd, AfterSlash, Rooted;
    PathEndFacts(h, path);
    StepPathEnd(AtPathEnd(h, path), Rooted(path), c, path[|path| - 1] == SLASH);
  }

  lemma FeedTarget(h: Head, r: Request)
    requires h.mode == Skip && h.line.queryLen == 0 && WellFormed(r)
    ensures var e := Feed(h, Target(r) + [SP]);
            && e.mode == Gap && e.text == h.text + Target(r) + [SP]
            && e.line.pathAt == |h.text| + Slashes(r.path) - 1 && e.line.pathLen == Kept(r.path, r.hasQuery)
            && (r.hasQuery ==> e.line.queryAt == |h.text| + |r.path| + 1 && e.line.queryLen == |r.query|)
            && e.line.word == h.line.word && e.line.versionLen == h.line.versionLen && e.entry.index == h.entry.index
  {
    hide Feed, Step, AtPathEnd, Kept;
    FeedWholePath(h, r.path);
    var a := AtPathEnd(h, r.path);
    if r.hasQuery {
      assert Target(r) + [SP] == r.path + ([QUESTION] + (r.query + [SP]));
      FeedPieces(h, r.path, [QUESTION] + (r.query + [SP]));
      FeedPieces(a, [QUESTION], r.query + [SP]);
      FeedOne(a, QUESTION);
      EndPath(h, r.path, QUESTION);
      var b := Step(a, QUESTION);
      FeedPieces(b, r.query, [SP]);
      FeedQuery(b, r.query);
      var c := Feed(b, r.query);
      FeedOne(c, SP);
      StepBlank(c);
      assert h.text + r.path + [QUESTION] + r.query + [SP] == h.text + Target(r) + [SP];
    } else {
      assert Target(r) == r.path;
      FeedPieces(h, r.path, [SP]);
      FeedOne(a, SP);
      EndPath(h, r.path, SP);
    }
  }

  lemma StepBlank(h: Head)
    requires h.mode == Query
    ensures Step(h, SP) == h.(mode := Gap, text := h.text + [SP])
  {}

  lemma FeedVerb(r: Request)
    requires WellFormed(r)
    ensures Feed(Start(), r.verb + [SP]) == Start().(mode := Skip, text := LowerAll(r.verb) + [SP],
                                                     line := Start().line.(word := LowerAll(r.verb)))
  {
    hide Feed;
    FeedMethod(Start(), r.verb);
    FeedPieces(Start(), r.verb, [SP]);
    assert [] + LowerAll(r.verb) == LowerAll(r.verb);
    FeedOne(Feed(Start(), r.verb), SP);
  }

  /** Text behind the version, up to the end of the line. */
  lemma {:induction false} FeedTrail(h: Head, s: seq<byte>)
    requires h.mode == VersionGap || h.mode == Tail
    requires CR !in s && LF !in s
    ensures var r := Feed(h, s); r == h.(mode := r.mode, text := h.text + s) && (r.mode == VersionGap || r.mode == Tail)
    decreases |s|
  {
    if s == [] {
      assert h.text + s == h.text;
    } else {
      FeedTrail(Step(h, s[0]), s[1..]);
      assert h.text + [s[0]] + s[1..] == h.text + s;
    }
  }

  lemma FeedTrailAfterVersion(h: Head, trail: seq<byte>)
    requires h.mode == Version && (trail != [] ==> trail[0] == SP && CR !in trail && LF !in trail)
    ensures var r := Feed(h, trail);
            && r == h.(mode := r.mode, text := h.text + trail)
            && (r.mode == Version || r.mode == VersionGap || r.mode == Tail)
  {
    hide Feed;
    if trail == [] {
      FeedNothing(h);
      assert h.text + trail == h.text;
    } else {
      FeedFirst(h, trail);
      FeedTrail(Step(h, SP), trail[1..]);
      assert h.text + [SP] + trail[1..] == h.text + trail;
    }
  }

  lemma FeedCrlf(h: Head)
    requires h.mode == Version || h.mode == VersionGap || h.mode == Tail
    ensures Feed(h, [CR, LF]) == h.(mode := LineStart, text := h.text + [CR, LF])
  {
    hide Feed;
    assert [CR] + [LF] == [CR, LF];
    FeedPieces(h, [CR], [LF]);
    FeedOne(h, CR);
    FeedOne(Step(h, CR), LF);
    assert h.text + [CR] + [LF] == h.text + [CR, LF];
  }

  lemma FeedLineEnd(h: Head, r: Request)
    requires h.mode == Gap && WellFormed(r)
    ensures Feed(h, Blank(r.gap) + r.version + r.trail + [CR, LF])
         == h.(mode := LineStart, text := h.text + (Blank(r.gap) + r.version + r.trail + [CR, LF]),
               line := h.line.(versionLen := h.line.versionLen + |r.version|))
  {
    hide Feed, Step;
    FeedBlanks(h, r.gap);
    var a := Feed(h, Blank(r.gap));
    FeedPieces(h, Blank(r.gap), r.version);
    FeedVersion(a, r.version);
    var b := Feed(a, r.version);
    FeedPieces(h, Blank(r.gap) + r.version, r.trail);
    FeedTrailAfterVersion(b, r.trail);
    var c := Feed(b, r.trail);
    FeedPieces(h, Blank(r.gap) + r.version + r.trail, [CR, LF]);
    FeedCrlf(c);
    assert h.text + Blank(r.gap) + r.version + r.trail + [CR, LF]
        == h.text + (Blank(r.gap) + r.version + r.trail + [CR, LF]);
  }

  /** The parser's view of the request line. */
  lemma FeedLine(r: Request)
    requires WellFormed(r)
    ensures var h := Feed(Start(), Line(r));
            && h.mode == LineStart && |h.text| == |Line(r)|
            && h.line.word == LowerAll(r.verb)
            && h.text[|r.verb|..] == Line(r)[|r.verb|..]
            && h.line.pathAt == |r.verb| + Slashes(r.path) && h.line.pathLen == Kept(r.path, r.hasQuery)
            && (r.hasQuery ==> h.line.queryAt == |r.verb| + |r.path| + 2 && h.line.queryLen == |r.query|)
            && h.line.versionLen == |r.version| && h.entry.index == map[]
  {
    hide Feed, Step, Kept;
    FeedVerb(r);
    var a := Feed(Start(), r.verb + [SP]);
    FeedTarget(a, r);
    var b := Feed(a, Target(r) + [SP]);
    FeedLineEnd(b, r);
    var end := Blank(r.gap) + r.version + r.trail + [CR, LF];
    assert Line(r) == (r.verb + [SP]) + ((Target(r) + [SP]) + end);
    FeedPieces(Start(), r.verb + [SP], (Target(r) + [SP]) + end);
    FeedPieces(a, Target(r) + [SP], end);
    var h := Feed(Start(), Line(r));
    assert h.text == LowerAll(r.verb) + ([SP] + Target(r) + [SP] + end);
    assert Line(r) == r.verb + ([SP] + Target(r) + [SP] + end);
  }

  lemma FeedBlankLine(h: Head)
    requires h.mode == LineStart
    ensures var e := Feed(h, [CR, LF]);
            && e.mode == Done && e.text == h.text + [CR, LF] && SameLine(e, h) && e.entry.index == h.entry.index
  {
    hide Feed;
    var a := h.(entry := h.entry.(nameAt := |h.text|, nameLen := 0));
    assert NameOf(a) == [];
    assert [CR] + [LF] == [CR, LF];
    FeedPieces(h, [CR], [LF]);
    FeedOne(h, CR);
    FeedOne(Step(h, CR), LF);
    assert h.text + [CR] + [LF] == h.text + [CR, LF];
  }

  /** Parsing undoes printing: whatever follows the head, the parser stops right behind it, finds the request line's
      parts, and enters every header name with the position of its last value. */
  lemma ParsePrinted(r: Request, body: seq<byte>)
    requires WellFormed(r)
    ensures var h := Feed(Start(), Print(r) + body);
            && h.mode == Done && |h.text| == |Print(r)|
            && h.line.word == LowerAll(r.verb)
            && h.line.pathAt == |r.verb| + Slashes(r.path) && h.line.pathLen == Kept(r.path, r.hasQuery)
            && (r.hasQuery ==> h.line.queryAt == |r.verb| + |r.path| + 2 && h.line.queryLen == |r.query|)
            && h.line.versionLen == |r.version|
            && h.entry.index == Entries(r.fields, |Line(r)|, map[])
  {
    hide Feed, Step, Kept, Line;
    FeedLine(r);
    var a := Feed(Start(), Line(r));
    FeedFields(a, r.fields);
    var b := Feed(a, FieldsText(r.fields));
    FeedBlankLine(b);
    var h := Feed(b, [CR, LF]);
    FeedPieces(Start(), Line(r), FieldsText(r.fields));
    FeedPieces(Start(), Line(r) + FieldsText(r.fields), [CR, LF]);
    FeedPieces(Start(), Print(r), body);
    FeedOver(h, body);
  }

  /** The value of a printed field, where the parser has read it. */
  lemma PrintedText(r: Request, body: seq<byte>, k: nat)
    requires WellFormed(r) && k < |r.fields|
    ensures var h := Feed(Start(), Print(r) + body);
            var at := |Line(r)| + |FieldsText(r.fields[..k])| + ValueStart(r.fields[k]);
            at + |r.fields[k].value| <= |h.text| && h.text[at..at + |r.fields[k].value|] == r.fields[k].value
  {
    hide Feed, Step, Kept, Line, FieldsText, FieldText, WellFormedField, Slashes, PathText, NoBlank;
    FeedLine(r);
    var a := Feed(Start(), Line(r));
    ValueInPlace(a, r.fields, k);
    FeedFields(a, r.fields);
    var b := Feed(a, FieldsText(r.fields));
    FeedBlankLine(b);
    FeedPieces(Start(), Line(r), FieldsText(r.fields));
    FeedPieces(Start(), Line(r) + FieldsText(r.fields), [CR, LF]);
    FeedPieces(Start(), Print(r), body);
    FeedOver(Feed(b, [CR, LF]), body);
    var at := |a.text| + |FieldsText(r.fields[..k])| + ValueStart(r.fields[k]);
    SliceOfPrefix(Feed(b, [CR, LF]).text, b.text, at, |r.fields[k].value|);
  }

  lemma SliceOfPrefix(s: seq<byte>, t: seq<byte>, at: nat, n: nat)
    requires |t| <= |s| && s[..|t|] == t && at + n <= |t|
    ensures s[at..at + n] == t[at..at + n]
  {
    forall i | at <= i < at + n ensures s[i] == t[i] {
      assert s[i] == s[..|t|][i];
    }
  }

  /** The entry of a printed field points at the field's value, and the buffer still holds it there. */
  lemma PrintedValue(r: Request, body: seq<byte>, k: nat)
    requires WellFormed(r) && k < |r.fields| && Unnamed(r.fields[k + 1..], LowerAll(r.fields[k].name))
    ensures var h := Feed(Start(), Print(r) + body);
            var name := LowerAll(r.fields[k].name);
            var len := |r.fields[k].value|;
            && name in h.entry.index
            && var at := h.entry.index[name] - len * 0x1_0000_0000;
               0 <= at && at + len <= |h.text| && h.text[at..at + len] == r.fields[k].value
  {
    hide Feed, Kept, Line, Print, Entries, FieldsText, WellFormed, LowerAll, Slashes;
    ParsePrinted(r, body);
    PrintedText(r, body, k);
    LastFieldCounts(r.fields, k, |Line(r)|, map[]);
    var at := |Line(r)| + |FieldsText(r.fields[..k])| + ValueStart(r.fields[k]);
    assert Feed(Start(), Print(r) + body).text[at..at + |r.fields[k].value|] == r.fields[k].value;
  }

  /** Of a path with one slash in front all is kept but a slash at its end; that of "/" stays when no query follows. */
  lemma PathKept(path: seq<byte>, hasQuery: bool)
    requires path != [] && path[0] == SLASH && |path| < 32768 && (|path| > 1 ==> path[1] != SLASH)
    ensures Kept(path, hasQuery)
         == |path| - (if path[|path| - 1] == SLASH && (hasQuery || |path| > 1) then 1 else 0)
  {
    SlashesWithin(path);
    assert Slashes(path[1..]) == 0;
  }

  // ---------------------------------------------------------------------------
  // Heads that are refused
  // ---------------------------------------------------------------------------

  /** How far a head has been read: into the path, into the query, into the version of `r`, or behind the request line
      and the fields of `r` into another header name. */
  datatype Place =
    | InPath(verb: seq<byte>, path: seq<byte>)
    | InQuery(verb: seq<byte>, path: seq<byte>, query: seq<byte>)
    | InVersion(r: Request, version: seq<byte>)
    | InName(r: Request, name: seq<byte>)

  function TextBefore(p: Place): seq<byte> {
    match p
    case InPath(verb, path) => verb + [SP] + path
    case InQuery(verb, path, query) => verb + [SP] + path + [QUESTION] + query
    case InVersion(r, version) => r.verb + [SP] + Target(r) + [SP] + version
    case InName(r, name) => Line(r) + FieldsText(r.fields) + name
  }

  predicate VerbAndPath(verb: seq<byte>, path: seq<byte>) {
    && verb != [] && (forall i :: 0 <= i < |verb| ==> Letter(verb[i]))
    && path != [] && path[0] == SLASH && PathText(path)
  }

  predicate PlaceOk(p: Place) {
    match p
    case InPath(verb, path) => VerbAndPath(verb, path)
    case InQuery(verb, path, query) => VerbAndPath(verb, path) && NoBlank(query)
    case InVersion(r, version) => WellFormed(r) && NoBlank(version)
    case InName(r, name) =>
      && WellFormed(r) && (name != [] ==> name[0] != SP)
      && forall i :: 0 <= i < |name| ==> Printable(name[i]) && name[i] != COLON
  }

  /** The bytes that are not printable, but a carriage return may end the version, and the head where a name could
      begin. */
  predicate Refuses(p: Place, c: byte) {
    match p
    case InPath(_, _) => c < 32 || c > 126
    case InQuery(_, _, _) => c < 32 || c > 126
    case InVersion(_, _) => (c < 32 || c > 126) && c != 13
    case InName(_, name) => (c < 32 || c > 126) && (c != 13 || name != [])
  }

  lemma FeedVerbOf(verb: seq<byte>, path: seq<byte>)
    requires VerbAndPath(verb, path)
    ensures Feed(Start(), verb + [SP]).mode == Skip && Feed(Start(), verb + [SP]).line.queryLen == 0
  {
    var r := Request(verb, path, false, [], 0, [SLASH], [], []);
    FeedVerb(r);
  }

  lemma FeedVerbPath(verb: seq<byte>, path: seq<byte>)
    requires VerbAndPath(verb, path)
    ensures 1 <= Slashes(path) <= |path|
    ensures Feed(Start(), verb + [SP] + path) == AtPathEnd(Feed(Start(), verb + [SP]), path)
  {
    hide Feed, AtPathEnd;
    FeedVerbOf(verb, path);
    FeedPieces(Start(), verb + [SP], path);
    FeedWholePath(Feed(Start(), verb + [SP]), path);
  }

  lemma FeedQueryText(verb: seq<byte>, path: seq<byte>, query: seq<byte>)
    requires VerbAndPath(verb, path) && NoBlank(query)
    ensures Feed(Start(), verb + [SP] + path + [QUESTION] + query).mode == Query
  {
    hide Feed, AtPathEnd, Step;
    FeedVerbPath(verb, path);
    var h := Feed(Start(), verb + [SP]);
    EndPath(h, path, QUESTION);
    FeedPieces(Start(), verb + [SP] + path, [QUESTION]);
    FeedOne(AtPathEnd(h, path), QUESTION);
    FeedPieces(Start(), verb + [SP] + path + [QUESTION], query);
    FeedQuery(Step(AtPathEnd(h, path), QUESTION), query);
  }

  lemma FeedVersionText(r: Request, version: seq<byte>)
    requires WellFormed(r) && NoBlank(version)
    ensures Feed(Start(), TextBefore(InVersion(r, version))).mode == if version == [] then Gap else Version
  {
    hide Feed, Step, Kept;
    FeedVerb(r);
    var a := Feed(Start(), r.verb + [SP]);
    FeedTarget(a, r);
    assert r.verb + [SP] + Target(r) + [SP] == (r.verb + [SP]) + (Target(r) + [SP]);
    FeedPieces(Start(), r.verb + [SP], Target(r) + [SP]);
    FeedPieces(Start(), r.verb + [SP] + Target(r) + [SP], version);
    var b := Feed(a, Target(r) + [SP]);
    if version == [] {
      FeedNothing(b);
    } else {
      FeedVersion(b, version);
    }
  }

  lemma FeedNameText(r: Request, name: seq<byte>)
    requires PlaceOk(InName(r, name))
    ensures var h := Feed(Start(), TextBefore(InName(r, name)));
            if name == [] then h.mode == LineStart
            else h.mode == Name && NameOf(h) != [] && NameOf(h)[0] != SP
  {
    hide Feed, Step, Kept, Line, FieldsText, LowerAll;
    FeedLine(r);
    var a := Feed(Start(), Line(r));
    FeedFields(a, r.fields);
    var b := Feed(a, FieldsText(r.fields));
    FeedPieces(Start(), Line(r), FieldsText(r.fields));
    FeedPieces(Start(), Line(r) + FieldsText(r.fields), name);
    if name == [] {
      FeedNothing(b);
    } else {
      FeedWholeName(b, name);
      LowerFirstByte(name);
    }
  }

  /** A head is refused at the first byte it may not hold in its path, its query, its version or a header name, whatever
      follows, and at no other byte there. */
  lemma RefusedAt(p: Place, c: byte, rest: seq<byte>)
    requires PlaceOk(p)
    ensures Feed(Start(), TextBefore(p) + [c]).mode == Bad <==> Refuses(p, c)
    ensures Refuses(p, c) ==> Feed(Start(), TextBefore(p) + [c] + rest).mode == Bad
  {
    hide Feed, Step, AtPathEnd, Line, FieldsText, Target, WellFormed, VerbAndPath, NameOf;
    match p {
      case InPath(verb, path) => FeedVerbPath(verb, path); PathEndModes(Feed(Start(), verb + [SP]), path);
      case InQuery(verb, path, query) => FeedQueryText(verb, path, query);
      case InVersion(r, version) => FeedVersionText(r, version);
      case InName(r, name) => FeedNameText(r, name);
    }
    var h := Feed(Start(), TextBefore(p));
    BadByte(h, c);
    FeedPieces(Start(), TextBefore(p), [c]);
    FeedOne(h, c);
    if Refuses(p, c) {
      FeedPieces(Start(), TextBefore(p) + [c], rest);
      FeedOver(Step(h, c), rest);
    }
  }

  lemma PathEndModes(h: Head, path: seq<byte>)
    requires 1 <= Slashes(path) <= |path|
    ensures AtPathEnd(h, path).mode == Slash || AtPathEnd(h, path).mode == Path
  {}

  /** The 16-bit fields for the path give exactly the printed path, neither slashed, wrapped nor cut, if and only if it
      begins with a single slash, does not end with one (but "/" alone may, when no query follows), and both its offset
      and its length are below 2^15. */
  lemma PathExact(r: Request)
    requires WellFormed(r)
    ensures (To16(|r.verb| + Slashes(r.path)) == |r.verb| + 1 && To16(Kept(r.path, r.hasQuery)) == |r.path|)
       <==> && Slashes(r.path) == 1 && |r.verb| + 1 < 32768 && |r.path| < 32768
            && (r.path[|r.path| - 1] == SLASH ==> |r.path| == 1 && !r.hasQuery)
  {
    SlashesWithin(r.path);
  }
}
