/** `parse_synset_map` (crates/rs-cinic-10-index/src/index.rs): rebuilds the
    synset hierarchy from lines whose run of leading dashes encodes depth.

    The parser is a method over its three pieces of local state (current class,
    `(depth, id)` stack, map), proved equal to `Run`, a left fold of `Step`
    over the lines. The lemmas state what the fold guarantees. */
module Synsets {
  import opened Wrappers
  import opened Text
  import opened Classes

  datatype SynsetNode = SynsetNode(
    synsetId: string,
    objectClass: ObjectClass,
    synsetBaseId: Option<string>,
    aliases: seq<string>)

  /** One entry of the ancestor stack: depth and synset id. */
  type StackEntry = (nat, string)

  /** The three fields a data line carries. */
  datatype DataLine = DataLine(depth: nat, id: string, aliases: seq<string>)

  /** A trimmed line that does not start with `-` is a class header. */
  predicate IsHeader(cur: string) {
    cur == [] || cur[0] != '-'
  }

  /** Depth, id and aliases of a trimmed data line; `None` when it holds no `:`
      (the source's `find(':').unwrap()` panics there). */
  function ParseDataLine(cur: string): Option<DataLine> {
    var depth := CountLeading(cur, '-');
    var line := cur[depth..];
    match IndexOf(line, ':')
    case None => None
    case Some(pos) => Some(DataLine(depth, line[..pos], TrimAll(Split(line[pos + 1..], ','))))
  }

  /** A run of dashes holds no colon. */
  lemma DashesNoColon(cur: string, d: nat)
    requires d <= |cur| && forall k :: 0 <= k < d ==> cur[k] == '-'
    ensures ':' !in cur[..d]
  {
    forall k | 0 <= k < d ensures cur[..d][k] != ':' {
      assert cur[..d][k] == cur[k];
    }
  }

  /** The text after the dashes holds a colon exactly when the line does. */
  lemma ColonAfterDashes(cur: string)
    ensures ':' in cur <==> ':' in cur[CountLeading(cur, '-')..]
  {
    var depth := CountLeading(cur, '-');
    DashesNoColon(cur, depth);
    assert cur == cur[..depth] + cur[depth..];
  }

  /** The depth is the number of leading dashes, the id is the untrimmed text
      from there to the first colon, the aliases are the trimmed comma-separated
      pieces after it; a line without a colon is refused. */
  lemma DataLineFields(cur: string)
    ensures ParseDataLine(cur).None? <==> ':' !in cur
    ensures ParseDataLine(cur).Some? ==>
      var dl := ParseDataLine(cur).value;
      var d, n := dl.depth, |dl.id|;
      var rest := cur[d..];
      && d + n < |cur|
      && (forall k :: 0 <= k < d ==> cur[k] == '-') && cur[d] != '-'
      && dl.id == rest[..n] && (forall k :: 0 <= k < n ==> rest[k] != ':') && rest[n] == ':'
      && dl.aliases == TrimAll(Split(rest[n + 1..], ','))
  {
    ColonAfterDashes(cur);
  }

  /** The alias list has one entry per comma plus one; an empty alias text gives
      the single alias `""`. */
  lemma AliasCount(cur: string)
    requires ParseDataLine(cur).Some?
    ensures var dl := ParseDataLine(cur).value;
      var tail := cur[dl.depth + |dl.id| + 1..];
      && |dl.aliases| == Count(tail, ',') + 1
      && (tail == [] ==> dl.aliases == [""])
  {
    DataLineFields(cur);
    var dl := ParseDataLine(cur).value;
    var tail := cur[dl.depth + |dl.id| + 1..];
    SplitCount(tail, ',');
    if tail == [] {
      assert Split(tail, ',') == [""];
      assert Trim("") == "";
    }
  }

  datatype ParserState = ParserState(
    objectClass: Option<ObjectClass>,
    stack: seq<StackEntry>,
    synsetMap: map<string, SynsetNode>)

  const Start := ParserState(None, [], map[])

  /** Pop every trailing entry whose depth is at least `depth`. */
  function PopDeeper(stack: seq<StackEntry>, depth: nat): (r: seq<StackEntry>)
    ensures |r| <= |stack| && r == stack[..|r|]
    ensures r != [] ==> r[|r| - 1].0 < depth
    ensures forall k :: |r| <= k < |stack| ==> stack[k].0 >= depth
    decreases |stack|
  {
    if stack != [] && stack[|stack| - 1].0 >= depth then
      PopDeeper(stack[..|stack| - 1], depth)
    else
      stack
  }

  /** The id on top of the stack, if any. */
  function Top(stack: seq<StackEntry>): Option<string> {
    if stack == [] then None else Some(stack[|stack| - 1].1)
  }

  /** The effect of a well-formed data line under a known class: pop, record
      the parent, push, insert. */
  function Push(st: ParserState, dl: DataLine): ParserState
    requires st.objectClass.Some?
  {
    var popped := PopDeeper(st.stack, dl.depth);
    var node := SynsetNode(dl.id, st.objectClass.value, Top(popped), dl.aliases);
    ParserState(st.objectClass, popped + [(dl.depth, dl.id)], st.synsetMap[dl.id := node])
  }

  /** One iteration of the parser's loop. */
  function Step(st: ParserState, fullLine: string): Result<ParserState> {
    var cur := Trim(fullLine);
    if IsHeader(cur) then
      match ParseObjectClass(cur)
      case None => Fail
      case Some(c) => Ok(ParserState(Some(c), [], st.synsetMap))
    else if st.objectClass.None? then
      Fail
    else
      match ParseDataLine(cur)
      case None => Fail
      case Some(dl) => Ok(Push(st, dl))
  }

  /** The parser's state after the given lines. */
  function Run(lines: seq<string>): Result<ParserState>
    decreases |lines|
  {
    if lines == [] then Ok(Start)
    else
      match Run(lines[..|lines| - 1])
      case Fail => Fail
      case Ok(st) => Step(st, lines[|lines| - 1])
  }

  /** What `parse_synset_map` returns for the given lines. */
  function SynsetMapOf(lines: seq<string>): Result<map<string, SynsetNode>> {
    match Run(lines)
    case Fail => Fail
    case Ok(st) => Ok(st.synsetMap)
  }

  /** A failure is final: no later line can undo it. */
  lemma {:induction false} FailSticks(lines: seq<string>, i: nat)
    requires i <= |lines| && Run(lines[..i]).Fail?
    ensures Run(lines).Fail?
    decreases |lines| - i
  {
    if i < |lines| {
      assert lines[..i + 1][..i] == lines[..i];
      FailSticks(lines, i + 1);
    } else {
      assert lines[..i] == lines;
    }
  }

  /** `parse_synset_map` over already split lines. */
  method ParseSynsetMap(lines: seq<string>) returns (r: Result<map<string, SynsetNode>>)
    ensures r == SynsetMapOf(lines)
  {
    var synsetMap: map<string, SynsetNode> := map[];
    var objectClass: Option<ObjectClass> := None;
    var synsetStack: seq<StackEntry> := [];
    var i := 0;
    while i < |lines|
      invariant 0 <= i <= |lines|
      invariant Run(lines[..i]) == Ok(ParserState(objectClass, synsetStack, synsetMap))
    {
      ghost var st := ParserState(objectClass, synsetStack, synsetMap);
      var cur := Trim(lines[i]);
      if IsHeader(cur) {
        RunHeaderLine(lines, i, st);
        var parsed := ParseObjectClass(cur);
        if parsed.None? {
          FailSticks(lines, i + 1);
          return Fail;
        }
        objectClass := parsed;
        synsetStack := [];
        i := i + 1;
        continue;
      }
      RunDataLine(lines, i, st);
      if objectClass.None? {
        FailSticks(lines, i + 1);
        return Fail;
      }
      var split := ParseDataLine(cur);
      if split.None? {
        FailSticks(lines, i + 1);
        return Fail;
      }
      var dl := split.value;
      synsetStack := PopWhileDeeper(synsetStack, dl.depth);
      var baseId := if synsetStack == [] then None else Some(synsetStack[|synsetStack| - 1].1);
      synsetStack := synsetStack + [(dl.depth, dl.id)];
      var node := SynsetNode(dl.id, objectClass.value, baseId, dl.aliases);
      synsetMap := synsetMap[node.synsetId := node];
      i := i + 1;
    }
    assert lines[..|lines|] == lines;
    r := Ok(synsetMap);
  }

  /** A header line after a successful prefix: the run goes on with that class
      and an empty stack, or fails when the line names no class. */
  lemma RunHeaderLine(lines: seq<string>, i: nat, st: ParserState)
    requires i < |lines| && Run(lines[..i]) == Ok(st) && IsHeader(Trim(lines[i]))
    ensures Run(lines[..i + 1]) == match ParseObjectClass(Trim(lines[i]))
      case None => Fail
      case Some(c) => Ok(ParserState(Some(c), [], st.synsetMap))
  {
    assert lines[..i + 1][..i] == lines[..i];
  }

  /** A data line after a successful prefix: the run fails without a current
      class or without a colon, and otherwise goes on with the line pushed. */
  lemma RunDataLine(lines: seq<string>, i: nat, st: ParserState)
    requires i < |lines| && Run(lines[..i]) == Ok(st) && !IsHeader(Trim(lines[i]))
    ensures Run(lines[..i + 1]) == if st.objectClass.None? then Fail else
      match ParseDataLine(Trim(lines[i]))
      case None => Fail
      case Some(dl) => Ok(Push(st, dl))
  {
    assert lines[..i + 1][..i] == lines[..i];
  }

  /** The parser's inner loop: pop the stack while its top is at least as deep
      as the new line. */
  method PopWhileDeeper(stack: seq<StackEntry>, depth: nat) returns (popped: seq<StackEntry>)
    ensures popped == PopDeeper(stack, depth)
  {
    popped := stack;
    while popped != [] && popped[|popped| - 1].0 >= depth
      invariant PopDeeper(popped, depth) == PopDeeper(stack, depth)
      decreases |popped|
    {
      popped := popped[..|popped| - 1];
    }
  }

  // ----- Invariants of the parser state -----

  /** Depths strictly increase from the bottom of the stack to its top. */
  predicate Increasing(stack: seq<StackEntry>) {
    forall i, j :: 0 <= i < j < |stack| ==> stack[i].0 < stack[j].0
  }

  /** Every id on the stack names a node of the current class block. */
  predicate StackInBlock(st: ParserState) {
    forall k :: 0 <= k < |st.stack| ==>
      && st.objectClass.Some?
      && st.stack[k].1 in st.synsetMap
      && st.synsetMap[st.stack[k].1].objectClass == st.objectClass.value
  }

  /** Every node is stored under its own id. */
  predicate KeyedById(m: map<string, SynsetNode>) {
    forall id :: id in m ==> m[id].synsetId == id
  }

  predicate Consistent(st: ParserState) {
    Increasing(st.stack) && StackInBlock(st) && KeyedById(st.synsetMap)
  }

  lemma PushConsistent(st: ParserState, dl: DataLine)
    requires st.objectClass.Some? && Consistent(st)
    ensures Consistent(Push(st, dl))
  {
    var popped := PopDeeper(st.stack, dl.depth);
    var st' := Push(st, dl);
    assert st'.stack == popped + [(dl.depth, dl.id)];
    forall i, j | 0 <= i < j < |st'.stack| ensures st'.stack[i].0 < st'.stack[j].0 {
      if j < |popped| {
        assert popped[i] == st.stack[i] && popped[j] == st.stack[j];
      } else if i < j - 1 {
        assert popped[i] == st.stack[i] && popped[j - 1] == st.stack[j - 1];
      }
    }
    forall k | 0 <= k < |st'.stack|
      ensures st'.stack[k].1 in st'.synsetMap
      ensures st'.synsetMap[st'.stack[k].1].objectClass == st'.objectClass.value
    {
      if k < |popped| { assert popped[k] == st.stack[k]; }
    }
  }

  lemma StepConsistent(st: ParserState, line: string)
    requires Consistent(st) && Step(st, line).Ok?
    ensures Consistent(Step(st, line).value)
  {
    var cur := Trim(line);
    if !IsHeader(cur) {
      PushConsistent(st, ParseDataLine(cur).value);
    }
  }

  /** Every state the parser reaches keeps the stack strictly increasing, the
      stack inside the current class block, and each node under its own id. */
  lemma {:induction false} RunConsistent(lines: seq<string>)
    requires Run(lines).Ok?
    ensures Consistent(Run(lines).value)
    decreases |lines|
  {
    if lines != [] {
      RunConsistent(lines[..|lines| - 1]);
      StepConsistent(Run(lines[..|lines| - 1]).value, lines[|lines| - 1]);
    }
  }

  /** Appending one line runs one more step. */
  lemma RunSnoc(lines: seq<string>, line: string)
    ensures Run(lines + [line]) == match Run(lines) case Fail => Fail case Ok(st) => Step(st, line)
  {
    assert (lines + [line])[..|lines|] == lines;
  }

  // ----- One step -----

  /** A header line must be one of the ten class names (so a blank line fails);
      it makes that class current, empties the stack and keeps the map. */
  lemma HeaderLine(st: ParserState, line: string)
    requires IsHeader(Trim(line))
    ensures Step(st, line).Ok? <==> exists c: ObjectClass :: ClassName(c) == Trim(line)
    ensures Trim(line) == [] ==> Step(st, line).Fail?
    ensures Step(st, line).Ok? ==>
      var st' := Step(st, line).value;
      && st'.objectClass.Some? && ClassName(st'.objectClass.value) == Trim(line)
      && st'.stack == [] && st'.synsetMap == st.synsetMap
  {
    var cur := Trim(line);
    StepHeader(st, line);
    if cur == [] {
      EmptyNotClass();
    }
  }

  /** A header line's step is decided by parsing it as a class name. */
  lemma StepHeader(st: ParserState, line: string)
    requires IsHeader(Trim(line))
    ensures Step(st, line) == match ParseObjectClass(Trim(line))
      case None => Fail
      case Some(c) => Ok(ParserState(Some(c), [], st.synsetMap))
  {
  }

  /** No class is named by the empty string. */
  lemma EmptyNotClass()
    ensures forall c: ObjectClass :: ClassName(c) != []
  {
  }

  /** What one well-formed data line does to a consistent state. */
  lemma PushFacts(st: ParserState, dl: DataLine)
    requires st.objectClass.Some? && Consistent(st)
    ensures var st' := Push(st, dl);
      var below := st'.stack[..|st'.stack| - 1];
      && st'.objectClass == st.objectClass
      && dl.id in st'.synsetMap
      && st'.synsetMap[dl.id] == SynsetNode(dl.id, st.objectClass.value, Top(below), dl.aliases)
      && (forall k :: k != dl.id ==> (k in st'.synsetMap <==> k in st.synsetMap))
      && (forall k :: k != dl.id && k in st.synsetMap ==> st'.synsetMap[k] == st.synsetMap[k])
      && |st'.stack| >= 1 && st'.stack[|st'.stack| - 1] == (dl.depth, dl.id)
      && (forall k :: 0 <= k < |below| ==> below[k].0 < dl.depth)
  {
    var popped := PopDeeper(st.stack, dl.depth);
    var st' := Push(st, dl);
    assert st'.stack[..|st'.stack| - 1] == popped;
    forall k | 0 <= k < |popped| ensures popped[k].0 < dl.depth {
      if k < |popped| - 1 {
        assert popped[k] == st.stack[k] && popped[|popped| - 1] == st.stack[|popped| - 1];
      }
    }
  }

  /** A data line fails when no header came before it or when it has no colon.
      Otherwise it inserts (or overwrites) the node for its id, with the current
      class, and changes no other entry; after the pops every remaining stack
      depth is below its own, the recorded parent is the top of what remains,
      and the line is pushed on top. */
  lemma DataLineStep(lines: seq<string>, line: string)
    requires Run(lines).Ok? && !IsHeader(Trim(line))
    ensures var st := Run(lines).value;
      Step(st, line).Ok? <==> st.objectClass.Some? && ':' in Trim(line)
    ensures Step(Run(lines).value, line).Ok? ==>
      var st, st' := Run(lines).value, Step(Run(lines).value, line).value;
      var dl := ParseDataLine(Trim(line)).value;
      var below := st'.stack[..|st'.stack| - 1];
      && st'.objectClass == st.objectClass
      && dl.id in st'.synsetMap
      && st'.synsetMap[dl.id] == SynsetNode(dl.id, st.objectClass.value, Top(below), dl.aliases)
      && (forall k :: k != dl.id ==> (k in st'.synsetMap <==> k in st.synsetMap))
      && (forall k :: k != dl.id && k in st.synsetMap ==> st'.synsetMap[k] == st.synsetMap[k])
      && |st'.stack| >= 1 && st'.stack[|st'.stack| - 1] == (dl.depth, dl.id)
      && (forall k :: 0 <= k < |below| ==> below[k].0 < dl.depth)
      && Increasing(st'.stack)
  {
    var st := Run(lines).value;
    DataLineFields(Trim(line));
    RunConsistent(lines);
    if Step(st, line).Ok? {
      var dl := ParseDataLine(Trim(line)).value;
      assert Step(st, line) == Ok(Push(st, dl));
      PushFacts(st, dl);
      PushConsistent(st, dl);
    }
  }

  /** The parent recorded for a new node is a node of the same class block:
      it is in the map and carries the same class. */
  lemma ParentInSameBlock(lines: seq<string>, line: string)
    requires Run(lines).Ok? && !IsHeader(Trim(line)) && Step(Run(lines).value, line).Ok?
    ensures var st' := Step(Run(lines).value, line).value;
      var node := st'.synsetMap[ParseDataLine(Trim(line)).value.id];
      node.synsetBaseId.Some? ==>
        && node.synsetBaseId.value in st'.synsetMap
        && st'.synsetMap[node.synsetBaseId.value].objectClass == node.objectClass
  {
    var st := Run(lines).value;
    RunConsistent(lines);
    var dl := ParseDataLine(Trim(line)).value;
    assert Step(st, line) == Ok(Push(st, dl));
    PushConsistent(st, dl);
    PushFacts(st, dl);
  }

  // ----- Whole runs -----

  /** Before the first header the current class is unset. */
  lemma {:induction false} NoHeaderNoClass(lines: seq<string>)
    requires Run(lines).Ok?
    requires forall j :: 0 <= j < |lines| ==> !IsHeader(Trim(lines[j]))
    ensures Run(lines).value.objectClass.None?
    decreases |lines|
  {
    if lines != [] {
      var init := lines[..|lines| - 1];
      NoHeaderNoClass(init);
    }
  }

  /** A data line seen before any class header makes the whole parse fail. */
  lemma DataLineBeforeHeaderFails(lines: seq<string>, i: nat)
    requires i < |lines| && !IsHeader(Trim(lines[i]))
    requires forall j :: 0 <= j < i ==> !IsHeader(Trim(lines[j]))
    ensures SynsetMapOf(lines).Fail?
  {
    var pre := lines[..i];
    assert Run(lines[..i + 1]).Fail? by {
      assert lines[..i + 1][..i] == pre && lines[..i + 1][i] == lines[i];
      if Run(pre).Ok? {
        NoHeaderNoClass(pre);
      }
    }
    FailSticks(lines, i + 1);
  }

  /** Popping down to depth `e`, then down to `d <= e`, is popping down to `d`. */
  lemma {:induction false} PopDeeperTwice(s: seq<StackEntry>, d: nat, e: nat)
    requires d <= e
    ensures PopDeeper(PopDeeper(s, e), d) == PopDeeper(s, d)
    decreases |s|
  {
    if s != [] && s[|s| - 1].0 >= e {
      PopDeeperTwice(s[..|s| - 1], d, e);
    }
  }

  /** The `(depth, id)` of the data lines since the last header, in order. */
  function Block(lines: seq<string>): seq<StackEntry>
    decreases |lines|
  {
    if lines == [] then []
    else
      var cur := Trim(lines[|lines| - 1]);
      if IsHeader(cur) then []
      else match ParseDataLine(cur)
        case None => Block(lines[..|lines| - 1])
        case Some(dl) => Block(lines[..|lines| - 1]) + [(dl.depth, dl.id)]
  }

  /** The id of the last entry of a block whose depth is below `d`. */
  function NearestShallower(block: seq<StackEntry>, d: nat): Option<string> {
    if block == [] then None
    else if block[|block| - 1].0 < d then Some(block[|block| - 1].1)
    else NearestShallower(block[..|block| - 1], d)
  }

  /** After pushing `(e, id)`, popping down to `d` leaves `id` on top when
      `e < d`, and otherwise the same top as popping the old stack. */
  lemma PopAfterPush(stack: seq<StackEntry>, e: nat, id: string, d: nat)
    ensures Top(PopDeeper(PopDeeper(stack, e) + [(e, id)], d)) ==
      if e < d then Some(id) else Top(PopDeeper(stack, d))
  {
    var popped := PopDeeper(stack, e);
    if e >= d {
      assert (popped + [(e, id)])[..|popped|] == popped;
      PopDeeperTwice(stack, d, e);
    }
  }

  lemma {:induction false} StackTopIsNearest(lines: seq<string>, d: nat)
    requires Run(lines).Ok?
    ensures Top(PopDeeper(Run(lines).value.stack, d)) == NearestShallower(Block(lines), d)
    decreases |lines|
  {
    if lines != [] {
      var init := lines[..|lines| - 1];
      var cur := Trim(lines[|lines| - 1]);
      if !IsHeader(cur) {
        var st := Run(init).value;
        var dl := ParseDataLine(cur).value;
        assert Run(lines) == Ok(Push(st, dl));
        assert Block(lines) == Block(init) + [(dl.depth, dl.id)];
        var b := Block(lines);
        assert b[..|b| - 1] == Block(init);
        PopAfterPush(st.stack, dl.depth, dl.id, d);
        if dl.depth >= d {
          StackTopIsNearest(init, d);
        }
      }
    }
  }

  /** The parent of a node is the nearest preceding data line of the same class
      block whose depth is strictly smaller, or none when there is no such line. */
  lemma ParentIsNearestShallower(lines: seq<string>, line: string)
    requires Run(lines + [line]).Ok? && !IsHeader(Trim(line))
    ensures Run(lines).Ok?
    ensures var dl := ParseDataLine(Trim(line)).value;
      var m := Run(lines + [line]).value.synsetMap;
      dl.id in m && m[dl.id].synsetBaseId == NearestShallower(Block(lines), dl.depth)
  {
    RunSnoc(lines, line);
    StackTopIsNearest(lines, ParseDataLine(Trim(line)).value.depth);
  }

  // ----- The example of the crate's own test -----

  lemma TrimLeadingSpace(alias: string)
    requires alias != [] && !IsWhitespace(alias[0]) && !IsWhitespace(alias[|alias| - 1])
    ensures Trim(" " + alias) == alias
  {
    assert (" " + alias)[1..] == alias;
  }

  lemma TrimSimpleDataLine(dashes: string, id: string, alias: string)
    requires dashes != [] && dashes[0] == '-' && alias != [] && !IsWhitespace(alias[|alias| - 1])
    ensures var cur := dashes + id + ": " + alias; Trim(cur) == cur && !IsHeader(cur)
  {
    var cur := dashes + id + ": " + alias;
    assert cur[0] == '-' && cur[|cur| - 1] == alias[|alias| - 1];
  }

  lemma DashPrefix(dashes: string, rest: string)
    requires forall k :: 0 <= k < |dashes| ==> dashes[k] == '-'
    requires rest != [] && rest[0] != '-'
    ensures CountLeading(dashes + rest, '-') == |dashes|
    ensures (dashes + rest)[|dashes|..] == rest
  {
    var cur := dashes + rest;
    assert cur[|dashes|] == rest[0];
    CountLeadingAt(cur, '-', |dashes|);
  }

  lemma ColonSplit(id: string, alias: string)
    requires ':' !in id
    ensures IndexOf(id + ": " + alias, ':') == Some(|id|)
    ensures (id + ": " + alias)[..|id|] == id
    ensures (id + ": " + alias)[|id| + 1..] == " " + alias
  {
    var line := id + ": " + alias;
    assert line[..|id|] == id;
    forall k | 0 <= k < |id| ensures line[k] != ':' {
      assert line[k] == id[k];
    }
    IndexOfAt(line, ':', |id|);
  }

  lemma AliasOne(alias: string)
    requires ',' !in alias
    requires alias != [] && !IsWhitespace(alias[0]) && !IsWhitespace(alias[|alias| - 1])
    ensures TrimAll(Split(" " + alias, ',')) == [alias]
  {
    var tail := " " + alias;
    assert ',' !in tail;
    assert Split(tail, ',') == [tail];
    TrimLeadingSpace(alias);
  }

  /** `<dashes><id>: <alias>` parses to the dash count, the id and the one alias. */
  lemma ParseSimpleDataLine(dashes: string, id: string, alias: string)
    requires forall k :: 0 <= k < |dashes| ==> dashes[k] == '-'
    requires (id == [] || id[0] != '-') && ':' !in id && ',' !in alias
    requires alias != [] && !IsWhitespace(alias[0]) && !IsWhitespace(alias[|alias| - 1])
    ensures ParseDataLine(dashes + id + ": " + alias) == Some(DataLine(|dashes|, id, [alias]))
  {
    var line := id + ": " + alias;
    assert dashes + id + ": " + alias == dashes + line;
    assert line[0] != '-' by { if id != [] { assert line[0] == id[0]; } else { assert line[0] == ':'; } }
    DashPrefix(dashes, line);
    ColonSplit(id, alias);
    AliasOne(alias);
  }

  lemma TrimClassName(c: ObjectClass)
    ensures Trim(ClassName(c)) == ClassName(c)
  {
    var name := ClassName(c);
    assert !IsWhitespace(name[0]) && !IsWhitespace(name[|name| - 1]);
  }

  lemma HeaderExample(st: ParserState, c: ObjectClass)
    ensures Step(st, ClassName(c)) == Ok(ParserState(Some(c), [], st.synsetMap))
  {
    TrimClassName(c);
    assert IsHeader(ClassName(c));
    ClassNameRoundTrip(c);
  }

  /** A trimmed data line that parses, under a known class, is pushed. */
  lemma DataStep(st: ParserState, line: string, dl: DataLine)
    requires st.objectClass.Some? && Trim(line) == line && !IsHeader(line)
    requires ParseDataLine(line) == Some(dl)
    ensures Step(st, line) == Ok(Push(st, dl))
  {
  }

  lemma DataExample(st: ParserState, dashes: string, id: string, alias: string)
    requires st.objectClass.Some? && Dashes(dashes) && SimpleId(id) && SimpleAlias(alias)
    ensures Step(st, dashes + id + ": " + alias) == Ok(Push(st, DataLine(|dashes|, id, [alias])))
  {
    TrimSimpleDataLine(dashes, id, alias);
    ParseSimpleDataLine(dashes, id, alias);
    DataStep(st, dashes + id + ": " + alias, DataLine(|dashes|, id, [alias]));
  }

  /** A run of one or more dashes. */
  predicate Dashes(d: string) {
    d != [] && forall k :: 0 <= k < |d| ==> d[k] == '-'
  }

  /** An id as the crate's test writes them: no leading dash, colon or line feed. */
  predicate SimpleId(id: string) {
    (id == [] || id[0] != '-') && ':' !in id && '\n' !in id
  }

  /** A single alias: no comma or line feed, and no whitespace at either end. */
  predicate SimpleAlias(alias: string) {
    alias != [] && !IsWhitespace(alias[0]) && !IsWhitespace(alias[|alias| - 1])
    && ',' !in alias && '\n' !in alias
  }

  lemma RunHeader(p: seq<string>, st: ParserState, c: ObjectClass)
    requires Run(p) == Ok(st)
    ensures Run(p + [ClassName(c)]) == Ok(ParserState(Some(c), [], st.synsetMap))
  {
    HeaderExample(st, c);
    RunSnoc(p, ClassName(c));
  }

  lemma RunData(p: seq<string>, st: ParserState, dashes: string, id: string, alias: string)
    requires Run(p) == Ok(st) && st.objectClass.Some?
    requires Dashes(dashes) && SimpleId(id) && SimpleAlias(alias)
    ensures Run(p + [dashes + id + ": " + alias]) == Ok(Push(st, DataLine(|dashes|, id, [alias])))
  {
    DataExample(st, dashes, id, alias);
    RunSnoc(p, dashes + id + ": " + alias);
  }

  lemma SnocSix<T>(a: T, b: T, c: T, d: T, e: T, f: T)
    ensures [] + [a] + [b] + [c] + [d] + [e] + [f] == [a, b, c, d, e, f]
  {
  }

  /** The six lines of the crate's test, with the class names, dashes, ids and
      aliases as parameters (the test itself uses dog and cat, four and six
      dashes, the ids n123, n1230, n9 and n999, and the aliases "good boy",
      "bestest boy", "cujo" and "chonk"). */
  function SampleLines(c1: ObjectClass, c2: ObjectClass, d4: string, d6: string,
                       ids: (string, string, string, string),
                       aliases: (string, string, string, string)): (r: seq<string>)
    ensures |r| == 6 && r[0] == ClassName(c1) && r[4] == ClassName(c2)
  {
    [ClassName(c1), d4 + ids.0 + ": " + aliases.0, d6 + ids.1 + ": " + aliases.1,
     d4 + ids.2 + ": " + aliases.2, ClassName(c2), d4 + ids.3 + ": " + aliases.3]
  }

  lemma RunSample(c1: ObjectClass, c2: ObjectClass, d4: string, d6: string,
                  ids: (string, string, string, string), aliases: (string, string, string, string))
    requires Dashes(d4) && |d4| == 4 && Dashes(d6) && |d6| == 6
    requires SimpleId(ids.0) && SimpleId(ids.1) && SimpleId(ids.2) && SimpleId(ids.3)
    requires SimpleAlias(aliases.0) && SimpleAlias(aliases.1) && SimpleAlias(aliases.2) && SimpleAlias(aliases.3)
    ensures SynsetMapOf(SampleLines(c1, c2, d4, d6, ids, aliases)) == Ok(map[
      ids.0 := SynsetNode(ids.0, c1, None, [aliases.0]),
      ids.1 := SynsetNode(ids.1, c1, Some(ids.0), [aliases.1]),
      ids.2 := SynsetNode(ids.2, c1, None, [aliases.2]),
      ids.3 := SynsetNode(ids.3, c2, None, [aliases.3])])
  {
    var l1, l2 := d4 + ids.0 + ": " + aliases.0, d6 + ids.1 + ": " + aliases.1;
    var l3, l5 := d4 + ids.2 + ": " + aliases.2, d4 + ids.3 + ": " + aliases.3;
    var p0: seq<string> := [];
    RunHeader(p0, Start, c1);
    var s1 := ParserState(Some(c1), [], map[]);
    RunData(p0 + [ClassName(c1)], s1, d4, ids.0, aliases.0);
    var s2 := Push(s1, DataLine(4, ids.0, [aliases.0]));
    RunData(p0 + [ClassName(c1)] + [l1], s2, d6, ids.1, aliases.1);
    var s3 := Push(s2, DataLine(6, ids.1, [aliases.1]));
    RunData(p0 + [ClassName(c1)] + [l1] + [l2], s3, d4, ids.2, aliases.2);
    var s4 := Push(s3, DataLine(4, ids.2, [aliases.2]));
    RunHeader(p0 + [ClassName(c1)] + [l1] + [l2] + [l3], s4, c2);
    var s5 := ParserState(Some(c2), [], s4.synsetMap);
    RunData(p0 + [ClassName(c1)] + [l1] + [l2] + [l3] + [ClassName(c2)], s5, d4, ids.3, aliases.3);
    assert PopDeeper(s2.stack, 6) == s2.stack;
    assert PopDeeper(s3.stack, 4) == [];
    SnocSix(ClassName(c1), l1, l2, l3, ClassName(c2), l5);
  }

  /** A data line of the sample holds no line feed and does not end in a
      carriage return. */
  lemma SampleDataLine(dashes: string, id: string, alias: string)
    requires Dashes(dashes) && SimpleId(id) && SimpleAlias(alias)
    ensures CleanLine(dashes + id + ": " + alias)
  {
    var l := dashes + id + ": " + alias;
    assert l[|l| - 1] == alias[|alias| - 1];
    forall k | 0 <= k < |l| ensures l[k] != '\n' {
      if k >= |dashes| + |id| + 2 {
        assert l[k] == alias[k - |dashes| - |id| - 2];
      } else if k >= |dashes| + |id| {
      } else if k >= |dashes| {
        assert l[k] == id[k - |dashes|];
      }
    }
  }

  /** A class name is a clean line. */
  lemma ClassNameLine(c: ObjectClass)
    ensures CleanLine(ClassName(c))
  {
  }

  /** Every line of the sample is clean. */
  lemma SampleLinesClean(c1: ObjectClass, c2: ObjectClass, d4: string, d6: string,
                         ids: (string, string, string, string), aliases: (string, string, string, string))
    requires Dashes(d4) && Dashes(d6)
    requires SimpleId(ids.0) && SimpleId(ids.1) && SimpleId(ids.2) && SimpleId(ids.3)
    requires SimpleAlias(aliases.0) && SimpleAlias(aliases.1) && SimpleAlias(aliases.2) && SimpleAlias(aliases.3)
    ensures var lines := SampleLines(c1, c2, d4, d6, ids, aliases);
      forall k :: 0 <= k < |lines| ==> CleanLine(lines[k])
  {
    var lines := SampleLines(c1, c2, d4, d6, ids, aliases);
    forall k | 0 <= k < |lines| ensures CleanLine(lines[k]) {
      if k == 0 {
        ClassNameLine(c1);
      } else if k == 1 {
        SampleDataLine(d4, ids.0, aliases.0);
      } else if k == 2 {
        SampleDataLine(d6, ids.1, aliases.1);
      } else if k == 3 {
        SampleDataLine(d4, ids.2, aliases.2);
      } else if k == 4 {
        ClassNameLine(c2);
      } else {
        SampleDataLine(d4, ids.3, aliases.3);
      }
    }
  }

  /** The hierarchy text of the crate's test, each line closed by a line feed,
      parses to exactly its four nodes: the second is the child of the first,
      the third (back at the first depth) and the fourth (under a new class
      header) have no parent. */
  lemma WorkedExample(c1: ObjectClass, c2: ObjectClass, d4: string, d6: string,
                      ids: (string, string, string, string), aliases: (string, string, string, string))
    requires Dashes(d4) && |d4| == 4 && Dashes(d6) && |d6| == 6
    requires SimpleId(ids.0) && SimpleId(ids.1) && SimpleId(ids.2) && SimpleId(ids.3)
    requires SimpleAlias(aliases.0) && SimpleAlias(aliases.1) && SimpleAlias(aliases.2) && SimpleAlias(aliases.3)
    ensures SynsetMapOf(Lines(Unlines(SampleLines(c1, c2, d4, d6, ids, aliases)))) == Ok(map[
      ids.0 := SynsetNode(ids.0, c1, None, [aliases.0]),
      ids.1 := SynsetNode(ids.1, c1, Some(ids.0), [aliases.1]),
      ids.2 := SynsetNode(ids.2, c1, None, [aliases.2]),
      ids.3 := SynsetNode(ids.3, c2, None, [aliases.3])])
  {
    var lines := SampleLines(c1, c2, d4, d6, ids, aliases);
    SampleLinesClean(c1, c2, d4, d6, ids, aliases);
    LinesUnlines(lines);
    RunSample(c1, c2, d4, d6, ids, aliases);
  }
}
