/**
 * The `populate-embeddings` edge function: the sentence chunker and the
 * handler that stores one row per chunk. The embedding service and the
 * database insert are parameters: `embed(chunk)` is the embedding or `None`
 * when the service fails, and `accepts(n)` says whether the `n`-th insert of
 * the request succeeds.
 */
module PopulateEmbeddings {

  import opened Wrappers
  import opened Text
  import opened Seqs

  // ---------------------------------------------------------------------
  // Sentences: `text.split(/(?<=[.!?])\s+/)`

  /** A split point: a white-space character right after `.`, `!` or `?`. */
  predicate BreakAt(s: string, i: int)
  {
    0 < i < |s| && s[i - 1] in {'.', '!', '?'} && IsSpace(s[i])
  }

  /** The first split point at or after `from`, or `|s|` when there is none. */
  function NextBreak(s: string, from: nat): (i: nat)
    requires from <= |s|
    ensures from <= i <= |s|
    ensures i < |s| ==> BreakAt(s, i)
    ensures forall j :: from <= j < i ==> !BreakAt(s, j)
    decreases |s| - from
  {
    if from == |s| then from
    else if BreakAt(s, from) then from
    else NextBreak(s, from + 1)
  }

  /** The end of the run of white space starting at `i`. */
  function SpaceRunEnd(s: string, i: nat): (j: nat)
    requires i <= |s|
    ensures i <= j <= |s|
    ensures j < |s| ==> !IsSpace(s[j])
    ensures forall k :: i <= k < j ==> IsSpace(s[k])
    decreases |s| - i
  {
    if i == |s| || !IsSpace(s[i]) then i else SpaceRunEnd(s, i + 1)
  }

  /**
   * The sentences of a text: the pieces between the maximal white-space runs
   * that follow sentence-ending punctuation. Every piece but the last is
   * non-empty; the last is empty when the text ends with such a run.
   */
  function Sentences(s: string): (r: seq<string>)
    ensures |r| >= 1
    ensures forall k :: 0 <= k < |r| - 1 ==> r[k] != ""
    decreases |s|
  {
    if |s| == 0 then [s]
    else
      var i := NextBreak(s, 1);
      if i == |s| then [s] else [s[..i]] + Sentences(s[SpaceRunEnd(s, i)..])
  }

  // ---------------------------------------------------------------------
  // Packing sentences into chunks

  /**
   * The size test of the packing loop. `AsWritten` is the test of the source,
   * which compares the length of the chunk and the sentence put together
   * without the joining space; `CountingSpace` compares the length of the
   * chunk the loop would actually build.
   */
  datatype FitTest = AsWritten | CountingSpace

  /** `currentChunk + (currentChunk ? ' ' : '') + sentence`. */
  function Extend(current: string, sentence: string): string
  {
    if current != "" then current + " " + sentence else sentence
  }

  predicate Fits(current: string, sentence: string, maxChunkSize: nat, test: FitTest)
  {
    match test
    case AsWritten => |current + sentence| <= maxChunkSize
    case CountingSpace => |Extend(current, sentence)| <= maxChunkSize
  }

  /** A chunk: its sentences joined by single spaces. */
  function Joined(group: seq<string>): string
  {
    Join(group, " ")
  }

  /** The sentences of the chunks already pushed, and of the chunk being built. */
  datatype Grouping = Grouping(closed: seq<seq<string>>, open: seq<string>)

  /**
   * Which sentences go into which chunk, sentence by sentence. A sentence
   * that fits joins the chunk being built (an empty sentence starting a chunk
   * leaves no trace); one that does not fit closes that chunk, if it has any
   * sentence, and starts the next.
   */
  function Group(ss: seq<string>, maxChunkSize: nat, test: FitTest): Grouping
    decreases |ss|
  {
    if ss == [] then Grouping([], [])
    else
      var g := Group(ss[..|ss| - 1], maxChunkSize, test);
      var s := ss[|ss| - 1];
      if Fits(Joined(g.open), s, maxChunkSize, test) then
        Grouping(g.closed, if g.open == [] && s == "" then [] else g.open + [s])
      else
        Grouping(g.closed + (if g.open != [] then [g.open] else []), if s == "" then [] else [s])
  }

  /** The groups of all chunks, the one being built included when it has a sentence. */
  function AllGroups(g: Grouping): seq<seq<string>>
  {
    g.closed + (if g.open != [] then [g.open] else [])
  }

  /**
   * `splitTextIntoChunks` as a value: the text itself when it is short
   * enough, otherwise one chunk per group of sentences.
   */
  function SplitText(text: string, maxChunkSize: nat, test: FitTest): (chunks: seq<string>)
    ensures |text| <= maxChunkSize ==> chunks == [text]
  {
    if |text| <= maxChunkSize then [text]
    else Map(AllGroups(Group(Sentences(text), maxChunkSize, test)), Joined)
  }

  /** `splitTextIntoChunks`, with the size test as a parameter. */
  method SplitTextIntoChunks(text: string, maxChunkSize: nat, test: FitTest) returns (chunks: seq<string>)
    ensures chunks == SplitText(text, maxChunkSize, test)
  {
    if |text| <= maxChunkSize {
      return [text];
    }
    var sentences := Sentences(text);
    var current;
    chunks, current := Pack(sentences, maxChunkSize, test);
    LastChunk(sentences, maxChunkSize, test);
    if current != "" {
      chunks := chunks + [current];
    }
  }

  /** The packing loop of `splitTextIntoChunks`: the chunks pushed and the chunk being built after the last sentence. */
  method Pack(sentences: seq<string>, maxChunkSize: nat, test: FitTest) returns (chunks: seq<string>, current: string)
    ensures chunks == Map(Group(sentences, maxChunkSize, test).closed, Joined)
    ensures current == Joined(Group(sentences, maxChunkSize, test).open)
  {
    chunks := [];
    current := "";
    var i := 0;
    ghost var g := Group([], maxChunkSize, test);
    while i < |sentences|
      invariant 0 <= i <= |sentences|
      invariant g == Group(sentences[..i], maxChunkSize, test)
      invariant chunks == Map(g.closed, Joined)
      invariant current == Joined(g.open)
    {
      var sentence := sentences[i];
      if Fits(current, sentence, maxChunkSize, test) {
        FitStep(sentences, i, maxChunkSize, test);
        current := current + (if current != "" then " " else "") + sentence;
      } else {
        CloseStep(sentences, i, maxChunkSize, test);
        if current != "" {
          chunks := chunks + [current];
        }
        current := sentence;
      }
      g := Group(sentences[..i + 1], maxChunkSize, test);
      i := i + 1;
    }
    assert sentences[..i] == sentences;
  }

  /** After the loop: pushing the chunk being built, when it is not empty, gives a chunk per group. */
  lemma LastChunk(ss: seq<string>, maxChunkSize: nat, test: FitTest)
    ensures var g := Group(ss, maxChunkSize, test);
      Map(AllGroups(g), Joined) == Map(g.closed, Joined) + (if Joined(g.open) != "" then [Joined(g.open)] else [])
  {
    var g := Group(ss, maxChunkSize, test);
    WellFormedGroups(ss, maxChunkSize, test);
    OpenEmptyIff(g.open);
    if g.open != [] {
      MapAppend(g.closed, [g.open], Joined);
    }
  }

  /** A step of the loop where the sentence fits: the chunk being built grows by the sentence. */
  lemma FitStep(ss: seq<string>, i: nat, maxChunkSize: nat, test: FitTest)
    requires i < |ss|
    requires Fits(Joined(Group(ss[..i], maxChunkSize, test).open), ss[i], maxChunkSize, test)
    ensures var g, g' := Group(ss[..i], maxChunkSize, test), Group(ss[..i + 1], maxChunkSize, test);
      var current := Joined(g.open);
      g'.closed == g.closed && Joined(g'.open) == current + (if current != "" then " " else "") + ss[i]
  {
    var g := Group(ss[..i], maxChunkSize, test);
    assert ss[..i + 1][..i] == ss[..i];
    WellFormedGroups(ss[..i], maxChunkSize, test);
    OpenEmptyIff(g.open);
    if g.open != [] {
      JoinAppend(g.open, [ss[i]], " ");
    }
  }

  /** A step of the loop where the sentence does not fit: the chunk being built is pushed, if any, and the sentence starts the next. */
  lemma CloseStep(ss: seq<string>, i: nat, maxChunkSize: nat, test: FitTest)
    requires i < |ss|
    requires !Fits(Joined(Group(ss[..i], maxChunkSize, test).open), ss[i], maxChunkSize, test)
    ensures var g, g' := Group(ss[..i], maxChunkSize, test), Group(ss[..i + 1], maxChunkSize, test);
      var current := Joined(g.open);
      Map(g'.closed, Joined) == Map(g.closed, Joined) + (if current != "" then [current] else []) && Joined(g'.open) == ss[i]
  {
    var g := Group(ss[..i], maxChunkSize, test);
    assert ss[..i + 1][..i] == ss[..i];
    WellFormedGroups(ss[..i], maxChunkSize, test);
    OpenEmptyIff(g.open);
    if g.open != [] {
      MapAppend(g.closed, [g.open], Joined);
    }
  }

  /** A group is well formed when it has a sentence and its first sentence is not empty. */
  predicate WellFormed(group: seq<string>)
  {
    group != [] && group[0] != ""
  }

  /** The chunk being built is empty exactly when it has no sentence. */
  lemma OpenEmptyIff(open: seq<string>)
    requires open == [] || WellFormed(open)
    ensures Joined(open) == "" <==> open == []
  {
    if open != [] {
      JoinStartsWithFirst(open, " ");
    }
  }

  /** Every group starts with a non-empty sentence. */
  lemma {:induction false} WellFormedGroups(ss: seq<string>, maxChunkSize: nat, test: FitTest)
    ensures forall k :: 0 <= k < |Group(ss, maxChunkSize, test).closed| ==> WellFormed(Group(ss, maxChunkSize, test).closed[k])
    ensures Group(ss, maxChunkSize, test).open == [] || WellFormed(Group(ss, maxChunkSize, test).open)
    decreases |ss|
  {
    if ss != [] {
      WellFormedGroups(ss[..|ss| - 1], maxChunkSize, test);
    }
  }

  // ---------------------------------------------------------------------
  // Properties of the chunks

  /** The chunks of a text longer than the limit are never empty. */
  lemma NoEmptyChunk(text: string, maxChunkSize: nat, test: FitTest)
    requires |text| > maxChunkSize
    ensures forall k :: 0 <= k < |SplitText(text, maxChunkSize, test)| ==> SplitText(text, maxChunkSize, test)[k] != ""
  {
    var groups := AllGroups(Group(Sentences(text), maxChunkSize, test));
    WellFormedGroups(Sentences(text), maxChunkSize, test);
    forall k | 0 <= k < |groups| ensures Joined(groups[k]) != "" {
      OpenEmptyIff(groups[k]);
    }
  }

  /** The sentences of a list of groups, in order. */
  function Flatten(groups: seq<seq<string>>): seq<string>
    decreases |groups|
  {
    if groups == [] then [] else Flatten(groups[..|groups| - 1]) + groups[|groups| - 1]
  }

  lemma FlattenSnoc(groups: seq<seq<string>>, g: seq<string>)
    ensures Flatten(groups + [g]) == Flatten(groups) + g
  {
    assert (groups + [g])[..|groups|] == groups;
  }

  function NonEmpty(ss: seq<string>): seq<string>
  {
    Filter(ss, s => s != "")
  }

  /** Grouping keeps every non-empty sentence, once and in order, and drops only empty ones. */
  lemma {:induction false} GroupKeepsSentences(ss: seq<string>, maxChunkSize: nat, test: FitTest)
    ensures NonEmpty(Flatten(AllGroups(Group(ss, maxChunkSize, test)))) == NonEmpty(ss)
    decreases |ss|
  {
    if ss != [] {
      var front, s := ss[..|ss| - 1], ss[|ss| - 1];
      GroupKeepsSentences(front, maxChunkSize, test);
      assert ss == front + [s];
      FilterAppend(front, [s], t => t != "");
      var added := FlattenStep(ss, maxChunkSize, test);
      FilterAppend(Flatten(AllGroups(Group(front, maxChunkSize, test))), added, t => t != "");
    }
  }

  /** One more sentence adds itself, or nothing when it is empty, to the sentences of the groups. */
  lemma FlattenStep(ss: seq<string>, maxChunkSize: nat, test: FitTest) returns (added: seq<string>)
    requires ss != []
    ensures added == [ss[|ss| - 1]] || (added == [] && ss[|ss| - 1] == "")
    ensures Flatten(AllGroups(Group(ss, maxChunkSize, test))) == Flatten(AllGroups(Group(ss[..|ss| - 1], maxChunkSize, test))) + added
  {
    var front, s := ss[..|ss| - 1], ss[|ss| - 1];
    var g0 := Group(front, maxChunkSize, test);
    assert ss == front + [s];
    GroupSnoc(front, s, maxChunkSize, test, g0);
    added := FlattenGrow(g0, s, Fits(Joined(g0.open), s, maxChunkSize, test), Group(ss, maxChunkSize, test));
  }

  /** `FlattenStep` for any grouping and either outcome of the size test. */
  lemma FlattenGrow(g0: Grouping, s: string, fits: bool, g: Grouping) returns (added: seq<string>)
    requires g == if fits then Grouping(g0.closed, if g0.open == [] && s == "" then [] else g0.open + [s])
      else Grouping(g0.closed + (if g0.open != [] then [g0.open] else []), if s == "" then [] else [s])
    ensures added == [s] || (added == [] && s == "")
    ensures Flatten(AllGroups(g)) == Flatten(AllGroups(g0)) + added
  {
    var before := Flatten(AllGroups(g0));
    if fits && !(g0.open == [] && s == "") {
      added := [s];
      assert Flatten(g0.closed) + g0.open == before by {
        if g0.open != [] {
          assert AllGroups(g0) == g0.closed + [g0.open];
          FlattenSnoc(g0.closed, g0.open);
        } else {
          assert AllGroups(g0) == g0.closed;
        }
      }
      FlattenSnoc(g0.closed, g0.open + [s]);
      assert AllGroups(g) == g0.closed + [g0.open + [s]];
    } else if fits {
      added := [];
      assert AllGroups(g) == AllGroups(g0);
    } else if s != "" {
      added := [s];
      assert AllGroups(g) == AllGroups(g0) + [[s]];
      FlattenSnoc(AllGroups(g0), [s]);
    } else {
      added := [];
      assert AllGroups(g) == AllGroups(g0);
    }
  }

  /**
   * The chunk each sentence group becomes: its sentences joined by single
   * spaces. Together with `GroupKeepsSentences`, every non-empty sentence is
   * in exactly one chunk, in the original order.
   */
  lemma ChunksAreJoinedGroups(text: string, maxChunkSize: nat, test: FitTest)
    requires |text| > maxChunkSize
    ensures var groups := AllGroups(Group(Sentences(text), maxChunkSize, test));
      && |SplitText(text, maxChunkSize, test)| == |groups|
      && (forall k :: 0 <= k < |groups| ==> SplitText(text, maxChunkSize, test)[k] == Join(groups[k], " "))
      && NonEmpty(Flatten(groups)) == NonEmpty(Sentences(text))
  {
    GroupKeepsSentences(Sentences(text), maxChunkSize, test);
  }

  /** The most a chunk of two or more sentences can exceed the limit by. */
  function Slack(test: FitTest): nat
  {
    if test == AsWritten then 1 else 0
  }

  /** A group of two or more sentences is at most `Slack(test)` characters over the limit. */
  lemma {:induction false} GroupLengthBound(ss: seq<string>, maxChunkSize: nat, test: FitTest)
    ensures forall k :: 0 <= k < |AllGroups(Group(ss, maxChunkSize, test))| && |AllGroups(Group(ss, maxChunkSize, test))[k]| >= 2
              ==> |Joined(AllGroups(Group(ss, maxChunkSize, test))[k])| <= maxChunkSize + Slack(test)
    decreases |ss|
  {
    if ss != [] {
      var front, s := ss[..|ss| - 1], ss[|ss| - 1];
      var g0 := Group(front, maxChunkSize, test);
      GroupLengthBound(front, maxChunkSize, test);
      WellFormedGroups(front, maxChunkSize, test);
      OpenEmptyIff(g0.open);
      if g0.open != [] {
        JoinAppend(g0.open, [s], " ");
      }
      assert forall k :: 0 <= k < |g0.closed| ==> AllGroups(g0)[k] == g0.closed[k];
    }
  }

  /** Chunks of two or more sentences: at most one character over the limit as written, within it with the space counted. */
  lemma ChunkLengthBound(text: string, maxChunkSize: nat, test: FitTest)
    requires |text| > maxChunkSize
    ensures var groups := AllGroups(Group(Sentences(text), maxChunkSize, test));
      forall k :: 0 <= k < |groups| && |groups[k]| >= 2 ==> |SplitText(text, maxChunkSize, test)[k]| <= maxChunkSize + Slack(test)
  {
    GroupLengthBound(Sentences(text), maxChunkSize, test);
  }

  /** A sentence over the limit ends up alone in a group of its own. */
  lemma {:induction false} OversizeAlone(ss: seq<string>, maxChunkSize: nat, test: FitTest)
    ensures forall k :: 0 <= k < |ss| && |ss[k]| > maxChunkSize ==> [ss[k]] in AllGroups(Group(ss, maxChunkSize, test))
    ensures forall k :: 0 <= k < |ss| - 1 && |ss[k]| > maxChunkSize ==> [ss[k]] in Group(ss, maxChunkSize, test).closed
    decreases |ss|
  {
    if ss != [] {
      var front, s := ss[..|ss| - 1], ss[|ss| - 1];
      var g0 := Group(front, maxChunkSize, test);
      var g := Group(ss, maxChunkSize, test);
      OversizeAlone(front, maxChunkSize, test);
      forall k | 0 <= k < |ss| - 1 && |ss[k]| > maxChunkSize ensures [ss[k]] in g.closed {
        assert front[k] == ss[k];
        if k < |front| - 1 {
          assert [ss[k]] in g0.closed;
        } else {
          assert [ss[k]] in AllGroups(g0);
          if [ss[k]] !in g0.closed {
            assert g0.open == [ss[k]];
          }
        }
      }
    }
  }

  /** A sentence of a long text that is over the limit is a chunk by itself. */
  lemma OversizeSentenceIsChunk(text: string, maxChunkSize: nat, test: FitTest, k: nat)
    requires |text| > maxChunkSize
    requires k < |Sentences(text)| && |Sentences(text)[k]| > maxChunkSize
    ensures [Sentences(text)[k]] in AllGroups(Group(Sentences(text), maxChunkSize, test))
    ensures Sentences(text)[k] in SplitText(text, maxChunkSize, test)
  {
    OversizeAlone(Sentences(text), maxChunkSize, test);
    var groups := AllGroups(Group(Sentences(text), maxChunkSize, test));
    var i :| 0 <= i < |groups| && groups[i] == [Sentences(text)[k]];
    assert SplitText(text, maxChunkSize, test)[i] == Joined(groups[i]);
  }

  // ---------------------------------------------------------------------
  // The size test as written lets a chunk exceed the limit

  /** The first sentence of the example text ends at the first space. */
  lemma ExampleFirstBreak()
    ensures NextBreak("a. b. c", 1) == 2 && SpaceRunEnd("a. b. c", 2) == 3
  {
    assert BreakAt("a. b. c", 2);
  }

  lemma ExampleSecondBreak()
    ensures NextBreak("b. c", 1) == 2 && SpaceRunEnd("b. c", 2) == 3
  {
    assert BreakAt("b. c", 2);
  }

  /** The three sentences of the example text. */
  lemma ExampleSentences()
    ensures Sentences("a. b. c") == ["a.", "b.", "c"]
  {
    var s := "a. b. c";
    ExampleFirstBreak();
    var t := s[3..];
    assert t == "b. c";
    assert Sentences(s) == [s[..2]] + Sentences(t);
    assert s[..2] == "a.";
    ExampleSecondBreak();
    var u := t[3..];
    assert u == "c";
    assert Sentences(t) == [t[..2]] + Sentences(u);
    assert t[..2] == "b.";
    assert NextBreak(u, 1) == 1;
    assert Sentences(u) == ["c"];
  }

  /** The grouping after one more sentence, from the grouping before it. */
  lemma GroupSnoc(ss: seq<string>, s: string, maxChunkSize: nat, test: FitTest, g: Grouping)
    requires g == Group(ss, maxChunkSize, test)
    ensures Group(ss + [s], maxChunkSize, test) ==
      if Fits(Joined(g.open), s, maxChunkSize, test) then
        Grouping(g.closed, if g.open == [] && s == "" then [] else g.open + [s])
      else
        Grouping(g.closed + (if g.open != [] then [g.open] else []), if s == "" then [] else [s])
  {
    assert (ss + [s])[..|ss|] == ss;
  }

  /** Under either test the first sentence opens the first group. */
  lemma ExampleFirstGroup(test: FitTest)
    ensures Group(["a."], 4, test) == Grouping([], ["a."])
  {
    GroupSnoc([], "a.", 4, test, Group([], 4, test));
    assert [] + ["a."] == ["a."];
  }

  /** As written, "b." joins "a." (2 + 2 <= 4) and "c" starts a new group. */
  lemma AsWrittenGroups()
    ensures Group(["a.", "b.", "c"], 4, AsWritten) == Grouping([["a.", "b."]], ["c"])
  {
    ExampleFirstGroup(AsWritten);
    assert Joined(["a."]) == "a.";
    GroupSnoc(["a."], "b.", 4, AsWritten, Grouping([], ["a."]));
    assert ["a."] + ["b."] == ["a.", "b."];
    JoinAppend(["a."], ["b."], " ");
    assert Joined(["a.", "b."]) == "a. b.";
    GroupSnoc(["a.", "b."], "c", 4, AsWritten, Grouping([], ["a.", "b."]));
    assert ["a.", "b."] + ["c"] == ["a.", "b.", "c"];
  }

  /** Counting the space, "a. b." is too long, and "b. c" fits. */
  lemma CountingSpaceGroups()
    ensures Group(["a.", "b.", "c"], 4, CountingSpace) == Grouping([["a."]], ["b.", "c"])
  {
    ExampleFirstGroup(CountingSpace);
    assert Joined(["a."]) == "a.";
    assert Extend("a.", "b.") == "a. b.";
    GroupSnoc(["a."], "b.", 4, CountingSpace, Grouping([], ["a."]));
    assert ["a."] + ["b."] == ["a.", "b."];
    assert Joined(["b."]) == "b.";
    assert Extend("b.", "c") == "b. c";
    GroupSnoc(["a.", "b."], "c", 4, CountingSpace, Grouping([["a."]], ["b."]));
    assert ["a.", "b."] + ["c"] == ["a.", "b.", "c"];
  }

  /**
   * With a limit of 4, the first two sentences pass the test as written
   * (2 + 2 <= 4) and are joined into a chunk of 5 characters.
   */
  lemma AsWrittenOverflows()
    ensures SplitText("a. b. c", 4, AsWritten) == ["a. b.", "c"]
    ensures |SplitText("a. b. c", 4, AsWritten)[0]| == 4 + 1
  {
    ExampleSentences();
    AsWrittenGroups();
    assert AllGroups(Grouping([["a.", "b."]], ["c"])) == [["a.", "b."], ["c"]];
    TwoChunks("a. b. c", 4, AsWritten, ["a.", "b."], ["c"]);
    ExampleJoins();
  }

  /** Counting the joining space keeps every chunk of the example within the limit. */
  lemma CountingSpaceFits()
    ensures SplitText("a. b. c", 4, CountingSpace) == ["a.", "b. c"]
  {
    ExampleSentences();
    CountingSpaceGroups();
    assert AllGroups(Grouping([["a."]], ["b.", "c"])) == [["a."], ["b.", "c"]];
    TwoChunks("a. b. c", 4, CountingSpace, ["a."], ["b.", "c"]);
    ExampleJoins();
  }

  /** A long text whose sentences form two groups becomes two chunks. */
  lemma TwoChunks(text: string, maxChunkSize: nat, test: FitTest, a: seq<string>, b: seq<string>)
    requires |text| > maxChunkSize
    requires AllGroups(Group(Sentences(text), maxChunkSize, test)) == [a, b]
    ensures SplitText(text, maxChunkSize, test) == [Joined(a), Joined(b)]
  {
  }

  lemma JoinedPair(x: string, y: string)
    ensures Joined([x, y]) == x + " " + y
  {
    JoinAppend([x], [y], " ");
    assert [x] + [y] == [x, y];
  }

  /** The chunks the groups of the example become. */
  lemma ExampleJoins()
    ensures Joined(["a.", "b."]) == "a. b." && Joined(["b.", "c"]) == "b. c"
    ensures Joined(["a."]) == "a." && Joined(["c"]) == "c"
  {
    JoinedPair("a.", "b.");
    JoinedPair("b.", "c");
  }

  // ---------------------------------------------------------------------
  // The handler

  /** A metadata value, as far as the handler looks at it. */
  datatype MetaValue = Num(n: int) | Str(s: string) | OtherValue

  type Metadata = map<string, MetaValue>

  /** The `text` member of an item: a string, or anything else (missing, a number, an object). */
  datatype TextField = StringText(s: string) | NotString

  /** An element of `data`: `null`/`undefined` (which cannot be destructured), or an object. */
  datatype Item = Missing | Item(text: TextField, metadata: Option<Metadata>)

  /** The request body: unreadable JSON, a `data` member that is not an array, or the array. */
  datatype Payload = Unreadable | NotArray | Items(items: seq<Item>)

  /** A chunk to store: its text, the metadata of its item, its position and the number of chunks of its item. */
  datatype Entry = Entry(content: string, itemMetadata: Option<Metadata>, index: nat, total: nat)

  datatype Row = Row(content: string, metadata: Metadata, embedding: seq<real>)

  /** One element of `results`: the first 100 characters of the chunk followed by `...`, and its metadata. */
  datatype Summary = Summary(content: string, metadata: Metadata)

  datatype Response = Stored(count: nat, results: seq<Summary>) | BadRequest(error: string) | Failed

  const ChunkSize: nat := 1000

  const InvalidData := "Invalid or empty data array"

  /** `{...metadata, chunk_index: index, total_chunks: total}`; spreading `undefined` adds nothing. */
  function ChunkMetadata(metadata: Option<Metadata>, index: nat, total: nat): (m: Metadata)
    ensures "chunk_index" in m && m["chunk_index"] == Num(index)
    ensures "total_chunks" in m && m["total_chunks"] == Num(total)
  {
    var base := if metadata.Some? then metadata.value else map[];
    base["chunk_index" := Num(index)]["total_chunks" := Num(total)]
  }

  /**
   * The chunk's metadata keeps every key of the item's metadata other than
   * the two it sets, and adds nothing else.
   */
  lemma ChunkMetadataSpread(metadata: Option<Metadata>, index: nat, total: nat)
    ensures var m := ChunkMetadata(metadata, index, total);
      && (metadata.None? ==> m.Keys == {"chunk_index", "total_chunks"})
      && (metadata.Some? ==> m.Keys == metadata.value.Keys + {"chunk_index", "total_chunks"})
      && (metadata.Some? ==> forall k :: k in metadata.value && k != "chunk_index" && k != "total_chunks" ==> m[k] == metadata.value[k])
  {
  }

  /** The metadata stored with a chunk. */
  function EntryMetadata(e: Entry): Metadata
  {
    ChunkMetadata(e.itemMetadata, e.index, e.total)
  }

  /** An item is processed when its text is a non-empty string; other items are skipped. */
  predicate Processable(item: Item)
  {
    item.Item? && item.text.StringText? && item.text.s != ""
  }

  /** The chunks of one text, each with the item's metadata, its position and the chunk count. */
  function Tagged(chunks: seq<string>, metadata: Option<Metadata>): (es: seq<Entry>)
    ensures |es| == |chunks|
    ensures forall k :: 0 <= k < |es| ==> es[k] == Entry(chunks[k], metadata, k, |chunks|)
  {
    seq(|chunks|, k requires 0 <= k < |chunks| => Entry(chunks[k], metadata, k, |chunks|))
  }

  /**
   * The handler's chunker: `splitTextIntoChunks(text)` with its default size
   * of 1000. The handler as written uses the `AsWritten` size test;
   * `CountingSpace` gives the corrected chunker.
   */
  function ChunksOf(test: FitTest): string -> seq<string>
  {
    text => SplitText(text, ChunkSize, test)
  }

  /**
   * What the handler's chunker gives: a text of at most 1000 characters is one
   * chunk; a longer one gives one chunk per group of sentences, joined by spaces.
   */
  lemma HandlerChunks(text: string, test: FitTest)
    ensures |text| <= ChunkSize ==> ChunksOf(test)(text) == [text]
    ensures |text| > ChunkSize ==>
      var groups := AllGroups(Group(Sentences(text), ChunkSize, test));
      && |ChunksOf(test)(text)| == |groups|
      && forall k :: 0 <= k < |groups| ==> ChunksOf(test)(text)[k] == Join(groups[k], " ")
  {
    if |text| > ChunkSize {
      ChunksAreJoinedGroups(text, ChunkSize, test);
    }
  }

  /**
   * The entries of one item under a chunker: one per chunk of its text; none
   * for a skipped item. The handler's loop is stated for any chunker and
   * `Populate` instantiates it with `ChunksOf(test)`.
   */
  function EntriesOf(item: Item, chunk: string -> seq<string>): (es: seq<Entry>)
    ensures !Processable(item) ==> es == []
    ensures Processable(item) ==> es == Tagged(chunk(item.text.s), item.metadata)
  {
    if Processable(item) then Tagged(chunk(item.text.s), item.metadata) else []
  }

  /** The entries of the first `n` items, in order. */
  function Work(items: seq<Item>, n: nat, chunk: string -> seq<string>): seq<Entry>
    requires n <= |items|
  {
    if n == 0 then [] else Work(items, n - 1, chunk) + EntriesOf(items[n - 1], chunk)
  }

  /** The work of fewer items is a prefix of the work of more. */
  lemma {:induction false} WorkPrefix(items: seq<Item>, a: nat, b: nat, chunk: string -> seq<string>)
    requires a <= b <= |items|
    ensures Work(items, a, chunk) <= Work(items, b, chunk)
    decreases b - a
  {
    if a < b {
      WorkPrefix(items, a, b - 1, chunk);
      PrefixOfLonger(Work(items, a, chunk), Work(items, b - 1, chunk), EntriesOf(items[b - 1], chunk));
    }
  }

  lemma PrefixOfLonger<T>(x: seq<T>, y: seq<T>, z: seq<T>)
    requires x <= y
    ensures x <= y + z
  {
    assert forall k :: 0 <= k < |x| ==> (y + z)[k] == y[k];
  }

  /** The position of the first missing item, or `|items|`. */
  function FirstMissing(items: seq<Item>): (m: nat)
    ensures m <= |items|
    ensures m < |items| ==> items[m].Missing?
    ensures forall j :: 0 <= j < m ==> items[j].Item?
  {
    if items == [] then 0
    else if items[0].Missing? then 0
    else 1 + FirstMissing(items[1..])
  }

  /** The entry is stored as the request's insert number `attempt`: its embedding is produced and the insert succeeds. */
  predicate StoredAs(e: Entry, attempt: nat, embed: string -> Option<seq<real>>, accepts: nat -> bool)
  {
    embed(e.content).Some? && accepts(attempt)
  }

  /** The number of entries stored before the first failure. */
  function StoredCount(entries: seq<Entry>, embed: string -> Option<seq<real>>, accepts: nat -> bool, from: nat := 0): (n: nat)
    requires from <= |entries|
    ensures from <= n <= |entries|
    ensures forall k :: from <= k < n ==> StoredAs(entries[k], k, embed, accepts)
    ensures n < |entries| ==> !StoredAs(entries[n], n, embed, accepts)
    decreases |entries| - from
  {
    if from == |entries| || !StoredAs(entries[from], from, embed, accepts) then from
    else StoredCount(entries, embed, accepts, from + 1)
  }

  /** Every entry has its embedding. */
  predicate Embedded(entries: seq<Entry>, embed: string -> Option<seq<real>>)
  {
    forall k :: 0 <= k < |entries| ==> embed(entries[k].content).Some?
  }

  /** The rows written for entries whose embeddings were produced. */
  function Rows(entries: seq<Entry>, embed: string -> Option<seq<real>>): (rows: seq<Row>)
    requires Embedded(entries, embed)
    ensures |rows| == |entries|
    ensures forall k :: 0 <= k < |entries| ==> rows[k].content == entries[k].content && rows[k].metadata == EntryMetadata(entries[k])
  {
    seq(|entries|, k requires 0 <= k < |entries| => Row(entries[k].content, EntryMetadata(entries[k]), embed(entries[k].content).value))
  }

  lemma RowsAppend(a: seq<Entry>, b: seq<Entry>, embed: string -> Option<seq<real>>)
    requires Embedded(a, embed) && Embedded(b, embed)
    ensures Embedded(a + b, embed)
    ensures Rows(a + b, embed) == Rows(a, embed) + Rows(b, embed)
  {
    assert forall k :: 0 <= k < |a + b| ==> (a + b)[k] == if k < |a| then a[k] else b[k - |a|];
  }

  lemma MapAppend<T, U>(a: seq<T>, b: seq<T>, f: T -> U)
    ensures Map(a + b, f) == Map(a, f) + Map(b, f)
  {
    assert forall k :: 0 <= k < |a + b| ==> (a + b)[k] == if k < |a| then a[k] else b[k - |a|];
  }

  /** `chunk.substring(0, 100) + '...'`. */
  function Preview(chunk: string): (p: string)
    ensures |p| == (if |chunk| < 100 then |chunk| else 100) + 3
    ensures p[..|p| - 3] == chunk[..|p| - 3]
    ensures p[|p| - 3..] == "..."
  {
    (if |chunk| < 100 then chunk else chunk[..100]) + "..."
  }

  function SummaryOf(e: Entry): Summary
  {
    Summary(Preview(e.content), EntryMetadata(e))
  }

  /** The `document_embeddings` table; rows are only ever appended. */
  class EmbeddingTable {
    var rows: seq<Row>

    constructor ()
      ensures rows == []
    {
      rows := [];
    }

    /** An insert the store accepts appends the row; a refused one changes nothing. */
    method Insert(row: Row, accepted: bool) returns (ok: bool)
      modifies this
      ensures ok == accepted
      ensures rows == old(rows) + (if accepted then [row] else [])
    {
      if accepted {
        rows := rows + [row];
      }
      ok := accepted;
    }
  }

  /**
   * The chunk loop of one item: each chunk is embedded and inserted, as
   * insert number `first + j`, until the first failure. `stored` is the
   * number of chunks stored.
   */
  method StoreChunks(table: EmbeddingTable, chunks: seq<string>, metadata: Option<Metadata>,
                     embed: string -> Option<seq<real>>, accepts: nat -> bool, first: nat)
    returns (stored: nat, summaries: seq<Summary>)
    modifies table
    ensures var es := Tagged(chunks, metadata);
      && stored <= |es|
      && (forall k :: 0 <= k < stored ==> StoredAs(es[k], first + k, embed, accepts))
      && (stored < |es| ==> !StoredAs(es[stored], first + stored, embed, accepts))
      && Embedded(es[..stored], embed)
      && table.rows == old(table.rows) + Rows(es[..stored], embed)
      && summaries == Map(es[..stored], SummaryOf)
  {
    ghost var es := Tagged(chunks, metadata);
    summaries := [];
    var j := 0;
    while j < |chunks|
      invariant 0 <= j <= |chunks|
      invariant forall k :: 0 <= k < j ==> StoredAs(es[k], first + k, embed, accepts)
      invariant Embedded(es[..j], embed)
      invariant table.rows == old(table.rows) + Rows(es[..j], embed)
      invariant summaries == Map(es[..j], SummaryOf)
    {
      var entry := Entry(chunks[j], metadata, j, |chunks|);
      assert entry == es[j];
      var embedding := embed(chunks[j]);
      if embedding.None? {
        return j, summaries;
      }
      ghost var before := table.rows;
      var ok := table.Insert(Row(entry.content, EntryMetadata(entry), embedding.value), accepts(first + j));
      if !ok {
        return j, summaries;
      }
      ChunkStored(es, j, embed, old(table.rows), before, table.rows, summaries);
      summaries := summaries + [SummaryOf(entry)];
      j := j + 1;
    }
    assert es[..j] == es;
    stored := j;
  }

  /** Entry `j` was embedded and its row appended: the chunk loop's facts hold one entry further. */
  lemma ChunkStored(es: seq<Entry>, j: nat, embed: string -> Option<seq<real>>,
                    initial: seq<Row>, before: seq<Row>, rows: seq<Row>, summaries: seq<Summary>)
    requires j < |es| && embed(es[j].content).Some?
    requires Embedded(es[..j], embed) && before == initial + Rows(es[..j], embed)
    requires rows == before + [Row(es[j].content, EntryMetadata(es[j]), embed(es[j].content).value)]
    requires summaries == Map(es[..j], SummaryOf)
    ensures Embedded(es[..j + 1], embed)
    ensures rows == initial + Rows(es[..j + 1], embed)
    ensures summaries + [SummaryOf(es[j])] == Map(es[..j + 1], SummaryOf)
  {
    assert es[..j + 1] == es[..j] + [es[j]];
    RowsAppend(es[..j], [es[j]], embed);
    MapAppend(es[..j], [es[j]], SummaryOf);
  }

  /**
   * The body of the item loop for an item that is not missing: a skipped item
   * stores nothing; otherwise its text is chunked and its chunks stored.
   */
  method ProcessItem(table: EmbeddingTable, item: Item, chunk: string -> seq<string>, embed: string -> Option<seq<real>>, accepts: nat -> bool, first: nat)
    returns (complete: bool, stored: nat, summaries: seq<Summary>)
    requires item.Item?
    modifies table
    ensures ItemOutcome(EntriesOf(item, chunk), first, complete, stored, old(table.rows), table.rows, summaries, embed, accepts)
  {
    ghost var es := EntriesOf(item, chunk);
    if item.text.StringText? && item.text.s != "" {
      var chunks := chunk(item.text.s);
      stored, summaries := StoreChunks(table, chunks, item.metadata, embed, accepts, first);
      complete := stored == |chunks|;
    } else {
      complete, stored, summaries := true, 0, [];
    }
  }

  /**
   * What storing the chunks of one item leaves: the first `stored` entries,
   * numbered from `first`, are in the table and summarised; the item is
   * complete exactly when that is all of them, and otherwise the next entry
   * is the one whose embedding or insert failed.
   */
  ghost predicate ItemOutcome(es: seq<Entry>, first: nat, complete: bool, stored: nat, before: seq<Row>, rows: seq<Row>,
                              summaries: seq<Summary>, embed: string -> Option<seq<real>>, accepts: nat -> bool)
  {
    && stored <= |es|
    && (complete <==> stored == |es|)
    && (forall k :: 0 <= k < stored ==> StoredAs(es[k], first + k, embed, accepts))
    && (stored < |es| ==> !StoredAs(es[stored], first + stored, embed, accepts))
    && Embedded(es[..stored], embed)
    && rows == before + Rows(es[..stored], embed)
    && summaries == Map(es[..stored], SummaryOf)
  }

  /**
   * The handler. An unreadable body fails; a `data` that is not a non-empty
   * array is a bad request. Otherwise the items are stored by `StoreItems`
   * with the chunker `ChunksOf(test)`; the handler as written is
   * `test == AsWritten`.
   */
  method Populate(table: EmbeddingTable, payload: Payload, test: FitTest, embed: string -> Option<seq<real>>, accepts: nat -> bool)
    returns (resp: Response)
    modifies table
    ensures payload.Unreadable? ==> resp.Failed? && table.rows == old(table.rows)
    ensures payload.NotArray? || payload == Items([]) ==> resp == BadRequest(InvalidData) && table.rows == old(table.rows)
    ensures payload.Items? && payload.items != [] ==>
      var entries := Work(payload.items, FirstMissing(payload.items), ChunksOf(test));
      var n := StoredCount(entries, embed, accepts);
      && Embedded(entries[..n], embed)
      && table.rows == old(table.rows) + Rows(entries[..n], embed)
      && (resp.Stored? <==> FirstMissing(payload.items) == |payload.items| && n == |entries|)
      && (resp.Stored? ==> resp.count == |entries| && resp.results == Map(entries, SummaryOf))
      && (!resp.Stored? ==> resp.Failed?)
  {
    if payload.Unreadable? {
      return Failed;
    }
    if payload.NotArray? || payload.items == [] {
      return BadRequest(InvalidData);
    }
    var ok, results := StoreItems(table, payload.items, ChunksOf(test), embed, accepts);
    if ok {
      assert payload.items[..|payload.items|] == payload.items;
      resp := Stored(|results|, results);
    } else {
      resp := Failed;
    }
  }

  /**
   * What the item loop has achieved after the first `i` items: none of them
   * is missing, every entry of theirs is stored, in order, and summarised.
   */
  ghost predicate Progress(items: seq<Item>, i: nat, done: seq<Entry>, initial: seq<Row>, rows: seq<Row>, results: seq<Summary>,
                           chunk: string -> seq<string>, embed: string -> Option<seq<real>>, accepts: nat -> bool)
  {
    && i <= |items|
    && (forall j :: 0 <= j < i ==> items[j].Item?)
    && done == Work(items, i, chunk)
    && (forall k :: 0 <= k < |done| ==> StoredAs(done[k], k, embed, accepts))
    && Embedded(done, embed)
    && rows == initial + Rows(done, embed)
    && results == Map(done, SummaryOf)
  }

  /**
   * The outcome of the item loop: the stored prefix of the work up to the
   * first missing item is in the table, and the loop succeeds exactly when
   * no item is missing and every entry was stored.
   */
  ghost predicate Outcome(items: seq<Item>, initial: seq<Row>, rows: seq<Row>, ok: bool, results: seq<Summary>,
                          chunk: string -> seq<string>, embed: string -> Option<seq<real>>, accepts: nat -> bool)
  {
    var entries := Work(items, FirstMissing(items), chunk);
    var n := StoredCount(entries, embed, accepts);
    && Embedded(entries[..n], embed)
    && rows == initial + Rows(entries[..n], embed)
    && (ok <==> FirstMissing(items) == |items| && n == |entries|)
    && (ok ==> results == Map(entries, SummaryOf))
  }

  /**
   * The item loop of the handler. The items are processed in order up to the
   * first missing item: each chunk of each processable item is embedded and
   * inserted. The first failure (missing item, embedding error, refused
   * insert) ends the loop with `ok` false, leaving the rows already inserted
   * in place; otherwise `results` summarises every stored chunk.
   */
  method StoreItems(table: EmbeddingTable, items: seq<Item>, chunk: string -> seq<string>, embed: string -> Option<seq<real>>, accepts: nat -> bool)
    returns (ok: bool, results: seq<Summary>)
    modifies table
    ensures Outcome(items, old(table.rows), table.rows, ok, results, chunk, embed, accepts)
  {
    ghost var done: seq<Entry> := [];
    results := [];
    var i := 0;
    while i < |items|
      invariant Progress(items, i, done, old(table.rows), table.rows, results, chunk, embed, accepts)
    {
      var more;
      ok, more, done := StoreItem(table, items, i, done, results, chunk, embed, accepts, old(table.rows));
      if !ok {
        return;
      }
      results := results + more;
      i := i + 1;
    }
    Finished(items, done, old(table.rows), table.rows, results, chunk, embed, accepts);
    ok := true;
  }

  /** Every item was processed and every entry stored: the loop succeeds. */
  lemma Finished(items: seq<Item>, done: seq<Entry>, initial: seq<Row>, rows: seq<Row>, results: seq<Summary>,
                 chunk: string -> seq<string>, embed: string -> Option<seq<real>>, accepts: nat -> bool)
    requires Progress(items, |items|, done, initial, rows, results, chunk, embed, accepts)
    ensures Outcome(items, initial, rows, true, results, chunk, embed, accepts)
  {
    assert FirstMissing(items) == |items|;
    Completed(done, embed, accepts);
  }

  /**
   * One turn of the item loop: item `i` is missing (failure) or processed.
   * On success the loop's progress covers one item more; on failure the
   * outcome of the whole loop is reached.
   */
  method StoreItem(table: EmbeddingTable, items: seq<Item>, i: nat, ghost done: seq<Entry>, results: seq<Summary>,
                   chunk: string -> seq<string>, embed: string -> Option<seq<real>>, accepts: nat -> bool, ghost initial: seq<Row>)
    returns (ok: bool, more: seq<Summary>, ghost next: seq<Entry>)
    requires i < |items|
    requires Progress(items, i, done, initial, table.rows, results, chunk, embed, accepts)
    modifies table
    ensures ok ==> Progress(items, i + 1, next, initial, table.rows, results + more, chunk, embed, accepts)
    ensures !ok ==> Outcome(items, initial, table.rows, false, results, chunk, embed, accepts)
  {
    if items[i].Missing? {
      FailedAtMissing(items, i, done, chunk, embed, accepts, initial, table.rows, results);
      return false, [], done;
    }
    ok, more, next := StorePresent(table, items, i, done, results, chunk, embed, accepts, initial);
  }

  /** One turn of the item loop for an item that is present. */
  method StorePresent(table: EmbeddingTable, items: seq<Item>, i: nat, ghost done: seq<Entry>, results: seq<Summary>,
                      chunk: string -> seq<string>, embed: string -> Option<seq<real>>, accepts: nat -> bool, ghost initial: seq<Row>)
    returns (ok: bool, more: seq<Summary>, ghost next: seq<Entry>)
    requires i < |items| && items[i].Item?
    requires Progress(items, i, done, initial, table.rows, results, chunk, embed, accepts)
    modifies table
    ensures ok ==> Progress(items, i + 1, next, initial, table.rows, results + more, chunk, embed, accepts)
    ensures !ok ==> Outcome(items, initial, table.rows, false, results, chunk, embed, accepts)
  {
    next := done;
    var item := items[i];
    ghost var before := table.rows;
    var complete, stored;
    complete, stored, more := ProcessItem(table, item, chunk, embed, accepts, |results|);
    ghost var es := EntriesOf(item, chunk);
    if !complete {
      ItemFailed(items, i, done, es, stored, chunk, embed, accepts, initial, before, table.rows, results, more);
      return false, more, done;
    }
    ItemStored(items, i, done, es, stored, chunk, embed, accepts, initial, before, table.rows, results, more);
    ok, next := true, done + es;
  }

  /** Item `i` was stored completely: the loop's progress covers it. */
  lemma ItemStored(items: seq<Item>, i: nat, done: seq<Entry>, es: seq<Entry>, stored: nat,
                   chunk: string -> seq<string>, embed: string -> Option<seq<real>>, accepts: nat -> bool,
                   initial: seq<Row>, before: seq<Row>, rows: seq<Row>, results: seq<Summary>, more: seq<Summary>)
    requires i < |items| && items[i].Item? && es == EntriesOf(items[i], chunk)
    requires Progress(items, i, done, initial, before, results, chunk, embed, accepts)
    requires ItemOutcome(es, |results|, true, stored, before, rows, more, embed, accepts)
    ensures Progress(items, i + 1, done + es, initial, rows, results + more, chunk, embed, accepts)
  {
    assert es[..stored] == es;
    StoredStep(done, es, embed, accepts, initial, before, rows, results, more);
    assert forall j :: 0 <= j < i + 1 ==> items[j].Item?;
  }

  /** Item `i` failed at chunk `stored`: the loop's outcome is a failure with the stored prefix in the table. */
  lemma ItemFailed(items: seq<Item>, i: nat, done: seq<Entry>, es: seq<Entry>, stored: nat,
                   chunk: string -> seq<string>, embed: string -> Option<seq<real>>, accepts: nat -> bool,
                   initial: seq<Row>, before: seq<Row>, rows: seq<Row>, results: seq<Summary>, more: seq<Summary>)
    requires i < |items| && items[i].Item? && es == EntriesOf(items[i], chunk)
    requires Progress(items, i, done, initial, before, results, chunk, embed, accepts)
    requires ItemOutcome(es, |results|, false, stored, before, rows, more, embed, accepts)
    ensures Outcome(items, initial, rows, false, results, chunk, embed, accepts)
  {
    FailedWithin(items, i, done, es, stored, chunk, embed, accepts);
    FailureRows(Work(items, FirstMissing(items), chunk), done, es[..stored], embed, initial, before, rows);
  }

  /** After a further group of entries is stored completely, the loop's facts about stored entries hold for both groups. */
  lemma StoredStep(done: seq<Entry>, es: seq<Entry>, embed: string -> Option<seq<real>>, accepts: nat -> bool,
                   initial: seq<Row>, before: seq<Row>, rows: seq<Row>, results: seq<Summary>, summaries: seq<Summary>)
    requires forall k :: 0 <= k < |done| ==> StoredAs(done[k], k, embed, accepts)
    requires forall k :: 0 <= k < |es| ==> StoredAs(es[k], |done| + k, embed, accepts)
    requires Embedded(done, embed) && Embedded(es, embed)
    requires before == initial + Rows(done, embed) && rows == before + Rows(es, embed)
    requires results == Map(done, SummaryOf) && summaries == Map(es, SummaryOf)
    ensures forall k :: 0 <= k < |done + es| ==> StoredAs((done + es)[k], k, embed, accepts)
    ensures Embedded(done + es, embed)
    ensures rows == initial + Rows(done + es, embed)
    ensures results + summaries == Map(done + es, SummaryOf)
  {
    RowsAppend(done, es, embed);
    MapAppend(done, es, SummaryOf);
    StoresAppend(done, es, embed, accepts);
  }

  lemma StoresAppend(done: seq<Entry>, es: seq<Entry>, embed: string -> Option<seq<real>>, accepts: nat -> bool)
    requires forall k :: 0 <= k < |done| ==> StoredAs(done[k], k, embed, accepts)
    requires forall k :: 0 <= k < |es| ==> StoredAs(es[k], |done| + k, embed, accepts)
    ensures forall k :: 0 <= k < |done + es| ==> StoredAs((done + es)[k], k, embed, accepts)
  {
    forall k | 0 <= k < |done + es| ensures StoredAs((done + es)[k], k, embed, accepts) {
      if k >= |done| {
        assert (done + es)[k] == es[k - |done|];
      }
    }
  }

  /** When every entry was stored, the stored count is all of them. */
  lemma Completed(done: seq<Entry>, embed: string -> Option<seq<real>>, accepts: nat -> bool)
    requires forall k :: 0 <= k < |done| ==> StoredAs(done[k], k, embed, accepts)
    ensures StoredCount(done, embed, accepts) == |done|
    ensures done[..|done|] == done
  {
  }

  /** A missing item at `i` after every earlier entry was stored: the stored entries are exactly the earlier ones. */
  lemma FailedAtMissing(items: seq<Item>, i: nat, done: seq<Entry>, chunk: string -> seq<string>, embed: string -> Option<seq<real>>, accepts: nat -> bool,
                        initial: seq<Row>, rows: seq<Row>, results: seq<Summary>)
    requires i < |items| && items[i].Missing?
    requires Progress(items, i, done, initial, rows, results, chunk, embed, accepts)
    ensures Outcome(items, initial, rows, false, results, chunk, embed, accepts)
  {
    assert FirstMissing(items) == i;
    Completed(done, embed, accepts);
  }

  /**
   * A failure at chunk `stored` of item `i`, after every earlier entry was
   * stored: the stored count of the request's work is `|done| + stored`.
   */
  lemma FailedWithin(items: seq<Item>, i: nat, done: seq<Entry>, es: seq<Entry>, stored: nat,
                     chunk: string -> seq<string>, embed: string -> Option<seq<real>>, accepts: nat -> bool)
    requires i < |items| && items[i].Item?
    requires forall j :: 0 <= j < i ==> items[j].Item?
    requires done == Work(items, i, chunk) && es == EntriesOf(items[i], chunk)
    requires stored < |es|
    requires forall k :: 0 <= k < |done| ==> StoredAs(done[k], k, embed, accepts)
    requires forall k :: 0 <= k < stored ==> StoredAs(es[k], |done| + k, embed, accepts)
    requires !StoredAs(es[stored], |done| + stored, embed, accepts)
    ensures var entries := Work(items, FirstMissing(items), chunk);
      && |done| + stored < |entries|
      && entries[..|done| + stored] == done + es[..stored]
      && StoredCount(entries, embed, accepts) == |done| + stored
  {
    assert forall j :: 0 <= j <= i ==> items[j].Item?;
    FirstMissingBeyond(items, i);
    var m := FirstMissing(items);
    WorkPrefix(items, i + 1, m, chunk);
    ShiftedStores(Work(items, m, chunk), done, es, stored, embed, accepts);
  }

  /** The rows written before a failure are the rows of the stored prefix of the work. */
  lemma FailureRows(entries: seq<Entry>, done: seq<Entry>, part: seq<Entry>, embed: string -> Option<seq<real>>,
                    initial: seq<Row>, before: seq<Row>, rows: seq<Row>)
    requires Embedded(done, embed) && Embedded(part, embed)
    requires |done + part| <= |entries| && entries[..|done + part|] == done + part
    requires before == initial + Rows(done, embed) && rows == before + Rows(part, embed)
    ensures Embedded(entries[..|done + part|], embed)
    ensures rows == initial + Rows(entries[..|done + part|], embed)
  {
    RowsAppend(done, part, embed);
  }

  /** No item is missing up to `i`, so the first missing one comes later. */
  lemma {:induction false} FirstMissingBeyond(items: seq<Item>, i: nat)
    requires i < |items|
    requires forall j :: 0 <= j <= i ==> items[j].Item?
    ensures FirstMissing(items) > i
  {
    assert items[0].Item?;
    if i > 0 {
      FirstMissingBeyond(items[1..], i - 1);
    }
  }

  /** The stores of `done` and then of `es` are the first stores of any work that starts with them. */
  lemma ShiftedStores(entries: seq<Entry>, done: seq<Entry>, es: seq<Entry>, stored: nat,
                      embed: string -> Option<seq<real>>, accepts: nat -> bool)
    requires done + es <= entries && stored < |es|
    requires forall k :: 0 <= k < |done| ==> StoredAs(done[k], k, embed, accepts)
    requires forall k :: 0 <= k < stored ==> StoredAs(es[k], |done| + k, embed, accepts)
    requires !StoredAs(es[stored], |done| + stored, embed, accepts)
    ensures |done| + stored < |entries|
    ensures entries[..|done| + stored] == done + es[..stored]
    ensures forall k :: 0 <= k < |done| + stored ==> StoredAs(entries[k], k, embed, accepts)
    ensures StoredCount(entries, embed, accepts) == |done| + stored
  {
    var p := done + es;
    assert forall k :: 0 <= k < |p| ==> entries[k] == p[k];
    forall k | 0 <= k < |done| + stored ensures StoredAs(entries[k], k, embed, accepts) {
      if k < |done| {
        assert entries[k] == done[k];
      } else {
        assert entries[k] == es[k - |done|];
      }
    }
    assert entries[|done| + stored] == es[stored];
    StoredCountIs(entries, |done| + stored, embed, accepts);
  }

  /** The stored count is the first position whose store fails. */
  lemma StoredCountIs(entries: seq<Entry>, t: nat, embed: string -> Option<seq<real>>, accepts: nat -> bool)
    requires t < |entries|
    requires forall k :: 0 <= k < t ==> StoredAs(entries[k], k, embed, accepts)
    requires !StoredAs(entries[t], t, embed, accepts)
    ensures StoredCount(entries, embed, accepts) == t
  {
  }
}
