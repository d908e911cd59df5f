/** Two context builders under the estimate of four characters a token: the chronological `make_full_context` of
    benchmarks/conversation_bench.py and the greedy `pack` of benchmarks/vendor_adapters.py. */
module ContextPacking {
  import opened Common

  /** `tokens`: the length in fours, rounded up; at least one unless empty. */
  function Tokens(s: string): nat { (|s| + 3) / 4 }

  function Join(sep: string, parts: seq<string>): string {
    if parts == [] then ""
    else if |parts| == 1 then parts[0]
    else Join(sep, parts[..|parts| - 1]) + sep + parts[|parts| - 1]
  }

  /** Four characters a token, the last one perhaps short. */
  lemma TokensAre(s: string)
    ensures Tokens("") == 0 && (s != "" ==> 4 * (Tokens(s) - 1) < |s| <= 4 * Tokens(s))
  {
  }

  /** Joining puts the separator between the parts, and nothing else anywhere. */
  lemma {:induction false} JoinConcat(sep: string, a: seq<string>, b: seq<string>)
    requires a != [] && b != []
    ensures Join(sep, a + b) == Join(sep, a) + sep + Join(sep, b)
    decreases |b|
  {
    hide Join;
    var n := |b| - 1;
    assert b == b[..n] + [b[n]];
    if n == 0 {
      JoinLast(sep, a, b[0]);
      JoinFew(sep, b[0]);
      assert b == [b[0]];
    } else {
      JoinConcat(sep, a, b[..n]);
      JoinLast(sep, b[..n], b[n]);
      JoinLast(sep, a + b[..n], b[n]);
      assert a + b == a + b[..n] + [b[n]];
      Regroup(Join(sep, a), sep, Join(sep, b[..n]), b[n]);
    }
  }

  lemma JoinLast(sep: string, parts: seq<string>, x: string)
    requires parts != []
    ensures Join(sep, parts + [x]) == Join(sep, parts) + sep + x
  {
    assert (parts + [x])[..|parts|] == parts;
  }

  lemma Regroup(a: string, sep: string, b: string, x: string)
    ensures a + sep + b + sep + x == a + sep + (b + sep + x)
  {
  }

  lemma JoinFew(sep: string, x: string)
    ensures Join(sep, []) == "" && Join(sep, [x]) == x
  {
  }

  lemma JoinAppend(sep: string, parts: seq<string>, x: string)
    ensures |Join(sep, parts + [x])| == |Join(sep, parts)| + (if parts == [] then 0 else |sep|) + |x|
  {
    assert (parts + [x])[..|parts|] == parts;
  }

  // ---------------------------------------------------------------- full context

  datatype Message = Message(speaker: Option<string>, role: Option<string>, text: Option<string>)

  datatype Session = Session(name: string, date: Option<string>, messages: seq<Message>)

  predicate Truthy(s: Option<string>) { s.Some? && s.value != "" }

  function HeaderLine(s: Session): string {
    if Truthy(s.date) then "=== " + s.name + " (" + s.date.value + ") ===" else "=== " + s.name + " ==="
  }

  function Line(m: Message): string {
    var speaker := if Truthy(m.speaker) then m.speaker.value else if Truthy(m.role) then m.role.value else "speaker";
    speaker + ": " + (if m.text.Some? then m.text.value else "")
  }

  /** A line names the speaker, else the role, else nobody in particular, and holds the text, if there is any. */
  lemma LineSays(m: Message)
    ensures exists who, text ::
              && Line(m) == who + ": " + text
              && (if m.speaker.Some? && m.speaker.value != "" then who == m.speaker.value
                  else if m.role.Some? && m.role.value != "" then who == m.role.value else who == "speaker")
              && (if m.text.Some? then text == m.text.value else text == "")
  {
    var who := if Truthy(m.speaker) then m.speaker.value else if Truthy(m.role) then m.role.value else "speaker";
    assert Line(m) == who + ": " + (if m.text.Some? then m.text.value else "");
  }

  /** A header names its session, and its date if it has one. */
  lemma HeaderSays(s: Session)
    ensures s.date.Some? && s.date.value != "" ==> HeaderLine(s) == "=== " + s.name + " (" + s.date.value + ") ==="
    ensures s.date.None? || s.date.value == "" ==> HeaderLine(s) == "=== " + s.name + " ==="
  {
  }

  lemma {:induction false} LinesAre(ms: seq<Message>)
    ensures forall i :: 0 <= i < |ms| ==> Lines(ms)[i] == Line(ms[i])
  {
    if ms != [] { LinesAre(ms[..|ms| - 1]); }
  }

  function Lines(ms: seq<Message>): (r: seq<string>)
    ensures |r| == |ms|
  {
    if ms == [] then [] else Lines(ms[..|ms| - 1]) + [Line(ms[|ms| - 1])]
  }

  /** A session's block with its first `n` messages. */
  function Block(s: Session, n: nat): string
    requires n <= |s.messages|
  {
    Join("\n", [HeaderLine(s)] + Lines(s.messages[..n]))
  }

  ghost predicate Fits(sessions: seq<Session>, shown: seq<nat>) {
    |shown| <= |sessions| && forall i :: 0 <= i < |shown| ==> shown[i] <= |sessions[i].messages|
  }

  /** The first sessions, each with an in-order prefix of its messages. */
  ghost function Blocks(sessions: seq<Session>, shown: seq<nat>): (r: seq<string>)
    requires Fits(sessions, shown)
    ensures |r| == |shown|
  {
    if shown == [] then []
    else var n := |shown| - 1; Blocks(sessions, shown[..n]) + [Block(sessions[n], shown[n])]
  }

  /** What the budget loop charges for a list of lines. */
  function Charge(lines: seq<string>): nat {
    if lines == [] then 0 else Charge(lines[..|lines| - 1]) + Tokens(lines[|lines| - 1]) + 1
  }

  lemma ChargeAppend(lines: seq<string>, x: string)
    ensures Charge(lines + [x]) == Charge(lines) + Tokens(x) + 1
  {
    assert (lines + [x])[..|lines|] == lines;
  }

  /** A block is charged for at least its own text and the blank line after it. */
  lemma {:induction false} ChargeCoversBlock(lines: seq<string>)
    requires lines != []
    ensures |Join("\n", lines)| + 2 <= 4 * Charge(lines)
  {
    var n := |lines| - 1;
    if n > 0 {
      ChargeCoversBlock(lines[..n]);
    } else {
      assert Charge(lines[..0]) == 0;
    }
  }

  ghost function TotalCharge(sessions: seq<Session>, shown: seq<nat>): nat
    requires Fits(sessions, shown)
  {
    if shown == [] then 0
    else
      var n := |shown| - 1;
      TotalCharge(sessions, shown[..n]) + Charge([HeaderLine(sessions[n])] + Lines(sessions[n].messages[..shown[n]]))
  }

  lemma {:induction false} ChargeCoversContext(sessions: seq<Session>, shown: seq<nat>)
    requires Fits(sessions, shown)
    ensures |Join("\n\n", Blocks(sessions, shown))| <= 4 * TotalCharge(sessions, shown)
    ensures shown != [] ==> |Join("\n\n", Blocks(sessions, shown))| + 2 <= 4 * TotalCharge(sessions, shown)
  {
    hide HeaderLine, Lines, Charge;
    if shown != [] {
      var n := |shown| - 1;
      ChargeCoversContext(sessions, shown[..n]);
      ChargeCoversBlock([HeaderLine(sessions[n])] + Lines(sessions[n].messages[..shown[n]]));
      JoinAppend("\n\n", Blocks(sessions, shown[..n]), Block(sessions[n], shown[n]));
    }
  }

  lemma BlocksAppend(sessions: seq<Session>, shown: seq<nat>, n: nat)
    requires Fits(sessions, shown + [n])
    ensures Fits(sessions, shown)
    ensures Blocks(sessions, shown + [n]) == Blocks(sessions, shown) + [Block(sessions[|shown|], n)]
    ensures TotalCharge(sessions, shown + [n])
         == TotalCharge(sessions, shown) + Charge([HeaderLine(sessions[|shown|])] + Lines(sessions[|shown|].messages[..n]))
  {
    hide HeaderLine, Lines, Charge, Block;
    assert (shown + [n])[..|shown|] == shown;
    forall i | 0 <= i < |shown| ensures shown[i] <= |sessions[i].messages| { assert (shown + [n])[i] == shown[i]; }
    assert (shown + [n])[|shown|] == n;
  }

  lemma LinesNext(ms: seq<Message>, n: nat)
    requires n < |ms|
    ensures Lines(ms[..n + 1]) == Lines(ms[..n]) + [Line(ms[n])]
  {
    assert ms[..n + 1][..n] == ms[..n];
  }

  /** The message loop of one session: how many messages are shown and what has been spent. */
  method ShowMessages(s: Session, spent0: nat, budget: Option<int>) returns (n: nat, block: string, spent: nat)
    requires budget.Some? ==> spent0 + Tokens(HeaderLine(s)) + 1 <= budget.value
    ensures n <= |s.messages| && block == Block(s, n)
    ensures spent == spent0 + Charge([HeaderLine(s)] + Lines(s.messages[..n]))
    ensures budget.Some? ==> spent <= budget.value
    ensures budget.None? ==> n == |s.messages|
    ensures n < |s.messages| ==> budget.Some? && spent + Tokens(Line(s.messages[n])) + 1 > budget.value
  {
    hide HeaderLine, Line, Tokens, Join;
    var lines := [HeaderLine(s)];
    ChargeAppend([], HeaderLine(s));
    assert [] + [HeaderLine(s)] == [HeaderLine(s)];
    assert [HeaderLine(s)] + Lines(s.messages[..0]) == [HeaderLine(s)];
    spent := spent0 + Tokens(HeaderLine(s)) + 1;
    n := 0;
    while n < |s.messages|
      invariant n <= |s.messages| && lines == [HeaderLine(s)] + Lines(s.messages[..n])
      invariant spent == spent0 + Charge(lines)
      invariant budget.Some? ==> spent <= budget.value
    {
      var line := Line(s.messages[n]);
      var cost := Tokens(line) + 1;
      if budget.Some? && spent + cost > budget.value { break; }
      LinesNext(s.messages, n);
      ChargeAppend(lines, line);
      lines := lines + [line];
      spent := spent + cost;
      n := n + 1;
    }
    block := Join("\n", lines);
  }

  /** Where a shown session is cut short, the next message would have gone over the budget. */
  ghost predicate StopsOnlyWhenFull(sessions: seq<Session>, shown: seq<nat>, budget: int) {
    && Fits(sessions, shown)
    && forall i :: 0 <= i < |shown| && shown[i] < |sessions[i].messages| ==>
         Fits(sessions, shown[..i + 1])
         && TotalCharge(sessions, shown[..i + 1]) + Tokens(Line(sessions[i].messages[shown[i]])) + 1 > budget
  }

  lemma StopNext(sessions: seq<Session>, shown: seq<nat>, n: nat, budget: int)
    requires StopsOnlyWhenFull(sessions, shown, budget) && Fits(sessions, shown + [n])
    requires var s := sessions[|shown|];
             n < |s.messages| ==> TotalCharge(sessions, shown + [n]) + Tokens(Line(s.messages[n])) + 1 > budget
    ensures StopsOnlyWhenFull(sessions, shown + [n], budget)
  {
    hide Line, Tokens, TotalCharge;
    var more := shown + [n];
    forall i | 0 <= i < |more| && more[i] < |sessions[i].messages|
      ensures Fits(sessions, more[..i + 1])
      ensures TotalCharge(sessions, more[..i + 1]) + Tokens(Line(sessions[i].messages[more[i]])) + 1 > budget
    {
      assert more[..i + 1] == if i < |shown| then shown[..i + 1] else more;
    }
  }

  method MakeFullContext(sessions: seq<Session>, budget: Option<int>) returns (ctx: string, size: nat, ghost shown: seq<nat>)
    ensures Fits(sessions, shown) && ctx == Join("\n\n", Blocks(sessions, shown)) && size == Tokens(ctx)
    ensures budget.None? ==>
              |shown| == |sessions| && forall i :: 0 <= i < |shown| ==> shown[i] == |sessions[i].messages|
    ensures budget.Some? ==> (size <= budget.value <==> budget.value >= 0)
    ensures budget.Some? ==> StopsOnlyWhenFull(sessions, shown, budget.value)
    ensures budget.Some? && |shown| < |sessions| ==>
              TotalCharge(sessions, shown) + Tokens(HeaderLine(sessions[|shown|])) + 1 > budget.value
  {
    hide HeaderLine, Line, Lines, Charge, Block, Join;
    var blocks: seq<string> := [];
    var spent := 0;
    shown := [];
    var i := 0;
    while i < |sessions|
      invariant i <= |sessions| && |shown| == i
      invariant Fits(sessions, shown) && blocks == Blocks(sessions, shown) && spent == TotalCharge(sessions, shown)
      invariant budget.Some? && shown != [] ==> spent <= budget.value
      invariant budget.None? ==> forall j :: 0 <= j < i ==> shown[j] == |sessions[j].messages|
      invariant budget.Some? ==> StopsOnlyWhenFull(sessions, shown, budget.value)
    {
      var s := sessions[i];
      if budget.Some? && spent + Tokens(HeaderLine(s)) + 1 > budget.value { break; }
      var n, block;
      n, block, spent := ShowMessages(s, spent, budget);
      blocks := blocks + [block];
      BlocksAppend(sessions, shown, n);
      if budget.Some? { StopNext(sessions, shown, n, budget.value); }
      shown := shown + [n];
      i := i + 1;
      if budget.Some? && spent >= budget.value { break; }
    }
    ctx := Join("\n\n", blocks);
    size := Tokens(ctx);
    ChargeCoversContext(sessions, shown);
    EmptyJoin(blocks);
  }

  lemma EmptyJoin(blocks: seq<string>)
    ensures blocks == [] ==> Tokens(Join("\n\n", blocks)) == 0
  {
  }

  // ---------------------------------------------------------------- greedy packing

  /** A stored turn as `pack` cites it. */
  datatype Turn = Turn(ref: string, date: Option<string>, speaker: string, text: string)

  function Chunk(t: Turn): string {
    "[" + t.ref + " | " + (if t.date.Some? then t.date.value else "undated") + " | " + t.speaker + "]\n" + t.text
  }

  /** A chunk cites reference, date and speaker before the text. */
  lemma ChunkSays(t: Turn)
    ensures exists date :: Chunk(t) == "[" + t.ref + " | " + date + " | " + t.speaker + "]\n" + t.text
                           && date == (if t.date.Some? then t.date.value else "undated")
  {
    assert Chunk(t) == "[" + t.ref + " | " + (if t.date.Some? then t.date.value else "undated") + " | " + t.speaker + "]\n" + t.text;
  }

  /** `list(dict.fromkeys(ids))`: first occurrences, in order. */
  function Dedup<Id(==)>(ids: seq<Id>): seq<Id> {
    if ids == [] then []
    else
      var rest, last := Dedup(ids[..|ids| - 1]), ids[|ids| - 1];
      if last in rest then rest else rest + [last]
  }

  /** `sub` is what is left of `s` after dropping elements. */
  ghost predicate Subsequence<Id>(sub: seq<Id>, s: seq<Id>) {
    sub == [] ||
    (s != [] &&
     ((sub[|sub| - 1] == s[|s| - 1] && Subsequence(sub[..|sub| - 1], s[..|s| - 1])) || Subsequence(sub, s[..|s| - 1])))
  }

  function Chunks<Id(==)>(turns: map<Id, Turn>, ids: seq<Id>): (r: seq<string>)
    requires forall id :: id in ids ==> id in turns
    ensures |r| == |ids|
  {
    if ids == [] then [] else Chunks(turns, ids[..|ids| - 1]) + [Chunk(turns[ids[|ids| - 1]])]
  }

  datatype Packed<Id> = OutsideCorpus | Packed(context: string, size: nat, kept: seq<Id>, ranked: seq<Id>)

  /** The context with one more chunk appended. */
  function Extended(chunks: seq<string>, chunk: string): string { Join("\n\n", chunks + [chunk]) }

  lemma {:induction false} DedupElements<Id(!new)>(ids: seq<Id>)
    ensures forall id :: id in Dedup(ids) <==> id in ids
  {
    if ids != [] {
      var n := |ids| - 1;
      DedupElements(ids[..n]);
      assert ids == ids[..n] + [ids[n]];
    }
  }

  /** Where an id first occurs. */
  ghost function FirstAt<Id(!new)>(ids: seq<Id>, id: Id): (i: nat)
    requires id in ids
    ensures i < |ids| && ids[i] == id && id !in ids[..i]
  {
    var n := |ids| - 1;
    assert ids == ids[..n] + [ids[n]];
    if id in ids[..n] then assert ids[..n][..FirstAt(ids[..n], id)] == ids[..FirstAt(ids[..n], id)]; FirstAt(ids[..n], id) else n
  }

  /** Each id once, in the order of first occurrence. */
  lemma {:induction false} DedupKeepsFirsts<Id(!new)>(ids: seq<Id>)
    ensures Distinct(Dedup(ids))
    ensures forall i, j :: 0 <= i < j < |Dedup(ids)| ==>
              Dedup(ids)[i] in ids && Dedup(ids)[j] in ids && FirstAt(ids, Dedup(ids)[i]) < FirstAt(ids, Dedup(ids)[j])
  {
    DedupElements(ids);
    if ids != [] {
      var n := |ids| - 1;
      var rest := Dedup(ids[..n]);
      DedupKeepsFirsts(ids[..n]);
      DedupElements(ids[..n]);
      forall id | id in ids[..n] ensures id in ids && FirstAt(ids, id) == FirstAt(ids[..n], id) { SameFirst(ids, id); }
      hide FirstAt;
      forall i, j | 0 <= i < j < |Dedup(ids)|
        ensures Dedup(ids)[i] in ids && Dedup(ids)[j] in ids && FirstAt(ids, Dedup(ids)[i]) < FirstAt(ids, Dedup(ids)[j])
      {
        assert Dedup(ids)[i] in Dedup(ids) && Dedup(ids)[j] in Dedup(ids) && rest[i] in rest;
        if j < |rest| { assert rest[j] in rest; } else { assert Dedup(ids)[j] == ids[n] && ids[n] !in ids[..n]; NewFirst(ids); }
      }
    }
  }

  lemma SameFirst<Id(!new)>(ids: seq<Id>, id: Id)
    requires ids != [] && id in ids[..|ids| - 1]
    ensures id in ids && FirstAt(ids, id) == FirstAt(ids[..|ids| - 1], id)
  {
  }

  lemma NewFirst<Id(!new)>(ids: seq<Id>)
    requires ids != [] && ids[|ids| - 1] !in ids[..|ids| - 1]
    ensures FirstAt(ids, ids[|ids| - 1]) == |ids| - 1
  {
  }

  /** What did not fit once never fits a context that has only grown. */
  lemma LongerStaysTooLong(chunks: seq<string>, added: string, chunk: string, budget: int)
    requires Tokens(Extended(chunks, chunk)) > budget
    ensures Tokens(Extended(chunks + [added], chunk)) > budget
  {
    JoinAppend("\n\n", chunks, chunk);
    JoinAppend("\n\n", chunks, added);
    JoinAppend("\n\n", chunks + [added], chunk);
    hide Join;
    TokensMonotone(Extended(chunks, chunk), Extended(chunks + [added], chunk));
  }

  lemma TokensMonotone(a: string, b: string)
    requires |a| <= |b|
    ensures Tokens(a) <= Tokens(b)
  {
  }

  lemma SubsequenceNext<Id>(sub: seq<Id>, s: seq<Id>, x: Id)
    requires Subsequence(sub, s)
    ensures Subsequence(sub, s + [x]) && Subsequence(sub + [x], s + [x])
  {
    assert (s + [x])[..|s|] == s && (sub + [x])[..|sub|] == sub;
  }

  lemma ChunksNext<Id>(turns: map<Id, Turn>, ids: seq<Id>, id: Id)
    requires id in turns && forall x :: x in ids ==> x in turns
    ensures Chunks(turns, ids + [id]) == Chunks(turns, ids) + [Chunk(turns[id])]
  {
    assert (ids + [id])[..|ids|] == ids;
  }

  /** The greedy rule, position by position: a turn is kept exactly when it fits after the turns kept before it.
      `counts[i]` is how many turns are kept among the first `i`. */
  ghost predicate Greedy<Id(!new)>(turns: map<Id, Turn>, ranked: seq<Id>, kept: seq<Id>, counts: seq<nat>, budget: int) {
    && |counts| == |ranked| + 1 && counts[0] == 0 && counts[|ranked|] == |kept|
    && (forall id :: id in kept ==> id in turns)
    && forall i :: 0 <= i < |ranked| ==> GreedyAt(turns, ranked[i], kept, counts[i], counts[i + 1], budget)
  }

  ghost predicate GreedyAt<Id(!new)>(turns: map<Id, Turn>, id: Id, kept: seq<Id>, before: nat, after: nat, budget: int)
    requires forall id :: id in kept ==> id in turns
  {
    && before <= |kept| && id in turns
    && if Tokens(Extended(Chunks(turns, kept[..before]), Chunk(turns[id]))) <= budget
       then after == before + 1 <= |kept| && kept[before] == id
       else after == before
  }

  lemma NothingPacked<Id(!new)>(turns: map<Id, Turn>, budget: int)
    ensures Chunks(turns, []) == [] && Subsequence<Id>([], []) && Greedy(turns, [], [], [0], budget)
  {
  }

  /** Appending a turn that fits, or passing over one that does not, keeps the rule. */
  lemma GreedyNext<Id(!new)>(turns: map<Id, Turn>, ranked: seq<Id>, kept: seq<Id>, counts: seq<nat>, budget: int, id: Id)
    requires Greedy(turns, ranked, kept, counts, budget) && id in turns
    ensures if Tokens(Extended(Chunks(turns, kept), Chunk(turns[id]))) <= budget
            then Greedy(turns, ranked + [id], kept + [id], counts + [|kept| + 1], budget)
            else Greedy(turns, ranked + [id], kept, counts + [|kept|], budget)
  {
    hide Tokens, Extended, Chunks, Chunk, GreedyAt;
    var fits := Tokens(Extended(Chunks(turns, kept), Chunk(turns[id]))) <= budget;
    var kept', count := if fits then kept + [id] else kept, if fits then |kept| + 1 else |kept|;
    LastTurn(turns, kept, id, budget);
    var ranked', counts' := ranked + [id], counts + [count];
    forall i | 0 <= i < |ranked'| ensures GreedyAt(turns, ranked'[i], kept', counts'[i], counts'[i + 1], budget) {
      if i < |ranked| {
        assert GreedyAt(turns, ranked[i], kept, counts[i], counts[i + 1], budget);
        EarlierTurn(turns, ranked[i], kept, kept', counts[i], counts[i + 1], budget);
      }
    }
  }

  lemma LastTurn<Id(!new)>(turns: map<Id, Turn>, kept: seq<Id>, id: Id, budget: int)
    requires id in turns && forall x :: x in kept ==> x in turns
    ensures if Tokens(Extended(Chunks(turns, kept), Chunk(turns[id]))) <= budget
            then GreedyAt(turns, id, kept + [id], |kept|, |kept| + 1, budget)
            else GreedyAt(turns, id, kept, |kept|, |kept|, budget)
  {
    hide Tokens, Extended, Chunks, Chunk;
    assert (kept + [id])[..|kept|] == kept == kept[..|kept|];
  }

  lemma EarlierTurn<Id(!new)>(turns: map<Id, Turn>, id: Id, kept: seq<Id>, kept': seq<Id>, before: nat, after: nat, budget: int)
    requires (forall x :: x in kept ==> x in turns) && (forall x :: x in kept' ==> x in turns) && kept <= kept'
    requires GreedyAt(turns, id, kept, before, after, budget)
    ensures GreedyAt(turns, id, kept', before, after, budget)
  {
    hide Tokens, Extended, Chunks, Chunk;
    assert kept'[..before] == kept[..before];
  }

  method Pack<Id(==, !new)>(turns: map<Id, Turn>, rankedIds: seq<Id>, budget: int) returns (r: Packed<Id>, ghost counts: seq<nat>)
    ensures r.OutsideCorpus? <==> exists id :: id in rankedIds && id !in turns
    ensures r.Packed? ==>
              && r.ranked == Dedup(rankedIds) && Subsequence(r.kept, r.ranked)
              && (forall id :: id in r.kept ==> id in turns)
              && r.context == Join("\n\n", Chunks(turns, r.kept)) && r.size == Tokens(r.context)
              && (r.size <= budget <==> budget >= 0) && Greedy(turns, r.ranked, r.kept, counts, budget)
              && (forall id :: id in rankedIds && id !in r.kept ==>
                    id in turns && Tokens(Extended(Chunks(turns, r.kept), Chunk(turns[id]))) > budget)
  {
    hide Chunk, Join, Tokens, Dedup, Subsequence, Chunks, Greedy;
    var ranked := Dedup(rankedIds);
    DedupElements(rankedIds);
    counts := [0];
    if exists id :: id in ranked && id !in turns { return OutsideCorpus, counts; }
    var chunks: seq<string>, kept: seq<Id> := [], [];
    NothingPacked(turns, budget);
    assert ranked[..0] == [];
    for i := 0 to |ranked|
      invariant Subsequence(kept, ranked[..i])
      invariant forall id :: id in kept ==> id in turns
      invariant chunks == Chunks(turns, kept) && Greedy(turns, ranked[..i], kept, counts, budget)
      invariant kept != [] ==> Tokens(Join("\n\n", chunks)) <= budget
      invariant forall id :: id in ranked[..i] && id !in kept ==>
                  id in turns && Tokens(Extended(chunks, Chunk(turns[id]))) > budget
    {
      var id := ranked[i];
      var chunk := Chunk(turns[id]);
      assert ranked[..i + 1] == ranked[..i] + [id];
      SubsequenceNext(kept, ranked[..i], id);
      GreedyNext(turns, ranked[..i], kept, counts, budget, id);
      if Tokens(Join("\n\n", chunks + [chunk])) <= budget {
        forall x | x in ranked[..i] && x !in kept ensures Tokens(Extended(chunks + [chunk], Chunk(turns[x]))) > budget {
          LongerStaysTooLong(chunks, chunk, Chunk(turns[x]), budget);
        }
        ChunksNext(turns, kept, id);
        chunks := chunks + [chunk];
        kept := kept + [id];
      }
      counts := counts + [|kept|];
    }
    assert ranked[..|ranked|] == ranked;
    var context := Join("\n\n", chunks);
    EmptyJoin(chunks);
    r := Packed(context, Tokens(context), kept, ranked);
  }
}
