/** The pairing that conversion does not establish: a tool result needs a tool use in the message before it. */
module ToolResults {
  import opened Strings
  import opened Messages

  predicate Calls(m: Msg, id: string) { m.role == Assistant && id in ToolUseIds(m) }

  /** Every result of the user's answers a tool use of the message right before. */
  ghost predicate NoOrphans(ms: seq<Msg>) {
    forall i, id | 0 <= i < |ms| && HasResult(ms[i], id) :: i > 0 && Calls(ms[i - 1], id)
  }

  // Repairing and padding neither orphan a result nor find it a tool use.

  lemma {:induction false} UnansweredAreIds(ids: seq<string>, next: Option<Msg>)
    ensures forall id | id in Unanswered(ids, next) :: id in ids
  {
    if ids != [] {
      UnansweredAreIds(ids[1..], next);
    }
  }

  lemma ResultsOfSynthetic(ids: seq<string>, rest: seq<Block>, id: string)
    ensures HasResult(Msg(User, Blocks(Synthetic(ids) + rest)), id) <==> id in ids || HasResult(Msg(User, Blocks(rest)), id)
  {
    var bs := Synthetic(ids) + rest;
    if j :| 0 <= j < |rest| && rest[j].ToolResult? && rest[j].toolUseId == Some(id) {
      assert bs[|ids| + j] == rest[j];
    }
    if id in ids {
      SyntheticAnswers(ids, rest, id);
    }
  }

  lemma ResultsAsBlocks(m: Msg, id: string)
    ensures HasResult(m, id) <==> m.role == User && HasResult(Msg(User, Blocks(AsBlocks(m.content))), id)
  {}

  /** A repaired message has its own results and those owed to the message before. */
  lemma RepairedResults(ms: seq<Msg>, i: nat, id: string)
    requires i < |ms|
    ensures HasResult(RepairedAt(ms, i), id) <==> HasResult(ms[i], id) || id in Owed(ms, i)
    ensures id in Owed(ms, i) ==> i > 0 && Calls(ms[i - 1], id)
  {
    ResultsOfSynthetic(Owed(ms, i), AsBlocks(ms[i].content), id);
    ResultsAsBlocks(ms[i], id);
    if i > 0 && id in Owed(ms, i) {
      UnansweredAreIds(ToolUseIds(ms[i - 1]), Next(ms, i - 1));
    }
  }

  lemma RepairedCalls(ms: seq<Msg>, i: nat, id: string)
    requires i < |ms|
    ensures Calls(RepairedAt(ms, i), id) <==> Calls(ms[i], id)
  {}

  lemma RepairedPoint(ms: seq<Msg>, i: nat, id: string)
    requires Alternates(ms) && i < |ms|
    ensures |Repair(ms)| >= |ms|
    ensures HasResult(Repair(ms)[i], id) <==> HasResult(ms[i], id) || id in Owed(ms, i)
    ensures id in Owed(ms, i) ==> i > 0 && Calls(ms[i - 1], id)
    ensures Calls(Repair(ms)[i], id) <==> Calls(ms[i], id)
  {
    RepairShape(ms);
    assert Repair(ms)[i] == RepairedAt(ms, i);
    hide Repair, RepairedAt, HasResult, Calls, Owed;
    RepairedResults(ms, i, id);
    RepairedCalls(ms, i, id);
  }

  lemma RepairOrphans(ms: seq<Msg>)
    requires Alternates(ms)
    ensures NoOrphans(Repair(ms)) <==> NoOrphans(ms)
  {
    hide HasResult, RepairedAt, Calls, Owed, Repair, Alternates;
    var r := Repair(ms);
    if NoOrphans(r) {
      forall i, id | 0 <= i < |ms| && HasResult(ms[i], id) ensures i > 0 && Calls(ms[i - 1], id) {
        RepairedPoint(ms, i, id);
        if i > 0 {
          RepairedPoint(ms, i - 1, id);
        }
      }
    }
    if NoOrphans(ms) {
      forall i, id | 0 <= i < |r| && HasResult(r[i], id) ensures i > 0 && Calls(r[i - 1], id) {
        if i < |ms| {
          RepairedPoint(ms, i, id);
          if i > 0 {
            RepairedPoint(ms, i - 1, id);
          }
        } else {
          TailResults(ms);
        }
      }
    }
  }

  lemma TailResults(ms: seq<Msg>)
    requires Alternates(ms) && |Repair(ms)| > |ms|
    ensures |Repair(ms)| == |ms| + 1 && ms != []
    ensures forall id | HasResult(Repair(ms)[|ms|], id) :: Calls(Repair(ms)[|ms| - 1], id)
  {
    RepairShape(ms);
    var last := |ms| - 1;
    UnansweredAreIds(ToolUseIds(ms[last]), Next(ms, last));
    forall id | HasResult(Repair(ms)[|ms|], id) ensures Calls(Repair(ms)[last], id) {
      assert Synthetic(Missing(ms, last)) + [] == Synthetic(Missing(ms, last));
      ResultsOfSynthetic(Missing(ms, last), [], id);
      RepairedCalls(ms, last, id);
    }
  }

  lemma PaddingOrphans(ms: seq<Msg>)
    ensures NoOrphans(PadBack(PadFront(ms))) <==> NoOrphans(ms)
  {
    var front := PadFront(ms);
    var out := PadBack(front);
    var shift := |front| - |ms|;
    forall i | 0 <= i < |ms| ensures out[i + shift] == ms[i] {}
    if NoOrphans(out) {
      forall i, id | 0 <= i < |ms| && HasResult(ms[i], id) ensures i > 0 && Calls(ms[i - 1], id) {
        assert HasResult(out[i + shift], id);
      }
    }
  }

  /** What is sent has an orphan exactly if the merged history has one. */
  lemma ShapeOrphans(ms: seq<Msg>)
    ensures NoOrphans(Shape(ms)) <==> NoOrphans(Merge(ms))
  {
    MergeAlternates(ms);
    RepairOrphans(Merge(ms));
    PaddingOrphans(Repair(Merge(ms)));
  }

  // On the unmerged messages.

  /** The tool uses of the assistant's turn that the list ends with, or that the user is answering. */
  ghost predicate Called(ms: seq<Msg>, id: string) {
    ms != [] &&
    var last, before := ms[|ms| - 1], ms[..|ms| - 1];
    match last.role
    case User => Called(before, id)
    case Assistant => Calls(last, id) || (before != [] && before[|before| - 1].role == Assistant && Called(before, id))
  }

  /** Every result comes in the user's turn right after the assistant's turn that called for it. */
  ghost predicate Fitting(ms: seq<Msg>) {
    ms != [] ==>
      var last, before := ms[|ms| - 1], ms[..|ms| - 1];
      Fitting(before) && forall id | HasResult(last, id) :: Called(before, id)
  }

  /** The same of a merged list: its last message, or the one before if that is the user's. */
  ghost predicate LastCalls(merged: seq<Msg>, id: string) {
    merged != [] &&
    var last := |merged| - 1;
    if merged[last].role == Assistant then Calls(merged[last], id) else last > 0 && Calls(merged[last - 1], id)
  }

  lemma {:induction false} UsesConcat(a: seq<Block>, b: seq<Block>)
    ensures UseIds(a + b) == UseIds(a) + UseIds(b)
  {
    if a == [] {
      assert a + b == b;
    } else {
      UsesConcat(a[1..], b);
      assert (a + b)[1..] == a[1..] + b;
    }
  }

  lemma UsesAsBlocks(m: Msg)
    ensures UseIds(AsBlocks(m.content)) == ToolUseIds(m)
  {
    if m.content.Plain? {
      assert [Text(m.content)][1..] == [];
    }
  }

  /** A joined message calls and answers what either did. */
  lemma JoinedPairs(a: Msg, b: Msg, id: string)
    requires a.role == b.role
    ensures Calls(Joined(a, b), id) <==> Calls(a, id) || Calls(b, id)
    ensures HasResult(Joined(a, b), id) <==> HasResult(a, id) || HasResult(b, id)
  {
    UsesConcat(AsBlocks(a.content), AsBlocks(b.content));
    UsesAsBlocks(a);
    UsesAsBlocks(b);
    ResultsAsBlocks(a, id);
    ResultsAsBlocks(b, id);
    ResultsConcat(AsBlocks(a.content), AsBlocks(b.content), id);
  }

  lemma ResultsConcat(a: seq<Block>, b: seq<Block>, id: string)
    ensures HasResult(Msg(User, Blocks(a + b)), id) <==> HasResult(Msg(User, Blocks(a)), id) || HasResult(Msg(User, Blocks(b)), id)
  {
    if j :| 0 <= j < |a| && a[j].ToolResult? && a[j].toolUseId == Some(id) {
      assert (a + b)[j] == a[j];
    }
    if j :| 0 <= j < |b| && b[j].ToolResult? && b[j].toolUseId == Some(id) {
      assert (a + b)[|a| + j] == b[j];
    }
  }

  lemma MergeOneOrphans(merged: seq<Msg>, m: Msg)
    requires Alternates(merged)
    ensures NoOrphans(MergeOne(merged, m)) <==> NoOrphans(merged) && forall id | HasResult(m, id) :: LastCalls(merged, id)
    ensures forall id :: LastCalls(MergeOne(merged, m), id) <==>
              if m.role == User then LastCalls(merged, id)
              else Calls(m, id) || (merged != [] && merged[|merged| - 1].role == Assistant && LastCalls(merged, id))
  {
    var t, last := MergeOne(merged, m), |merged| - 1;
    if merged != [] && merged[last].role == m.role {
      forall id
        ensures Calls(t[last], id) <==> Calls(merged[last], id) || Calls(m, id)
        ensures HasResult(t[last], id) <==> HasResult(merged[last], id) || HasResult(m, id)
      {
        JoinedPairs(merged[last], m, id);
      }
      JoinOrphans(merged, m);
    } else {
      AppendOrphans(merged, m);
    }
  }

  lemma ResultIsUsers(m: Msg, id: string)
    ensures HasResult(m, id) ==> m.role == User
  {}

  lemma AppendOrphans(merged: seq<Msg>, m: Msg)
    requires merged != [] ==> merged[|merged| - 1].role != m.role
    ensures NoOrphans(merged + [m]) <==> NoOrphans(merged) && forall id | HasResult(m, id) :: LastCalls(merged, id)
    ensures forall id :: LastCalls(merged + [m], id) <==> if m.role == User then LastCalls(merged, id) else Calls(m, id)
  {
    var t := merged + [m];
    forall id ensures HasResult(m, id) ==> m.role == User {
      ResultIsUsers(m, id);
    }
    hide HasResult;
    forall i, id | 0 <= i < |merged| && HasResult(merged[i], id) ensures t[i] == merged[i] {}
    assert t[|merged|] == m;
    if NoOrphans(t) {
      forall i, id | 0 <= i < |merged| && HasResult(merged[i], id) ensures i > 0 && Calls(merged[i - 1], id) {
        assert HasResult(t[i], id);
      }
      forall id | HasResult(m, id) ensures LastCalls(merged, id) {
        assert HasResult(t[|merged|], id);
      }
    }
  }

  lemma JoinOrphans(merged: seq<Msg>, m: Msg)
    requires Alternates(merged) && merged != [] && merged[|merged| - 1].role == m.role
    ensures NoOrphans(MergeOne(merged, m)) <==> NoOrphans(merged) && forall id | HasResult(m, id) :: LastCalls(merged, id)
  {
    var t, last := MergeOne(merged, m), |merged| - 1;
    forall id
      ensures HasResult(t[last], id) <==> HasResult(merged[last], id) || HasResult(m, id)
      ensures HasResult(merged[last], id) || HasResult(m, id) ==> m.role == User
    {
      JoinedPairs(merged[last], m, id);
      ResultIsUsers(m, id);
      ResultIsUsers(merged[last], id);
    }
    hide HasResult, Joined, Calls;
    assert forall i | 0 <= i < last :: t[i] == merged[i];
    if NoOrphans(t) {
      forall i, id | 0 <= i < |merged| && HasResult(merged[i], id) ensures i > 0 && Calls(merged[i - 1], id) {
        assert HasResult(t[i], id);
      }
      forall id | HasResult(m, id) ensures LastCalls(merged, id) {
        assert HasResult(t[last], id);
      }
    }
  }

  lemma {:induction false} MergeOrphans(ms: seq<Msg>)
    ensures NoOrphans(Merge(ms)) <==> Fitting(ms)
    ensures forall id :: LastCalls(Merge(ms), id) <==> Called(ms, id)
    ensures ms != [] ==> Merge(ms) != [] && Merge(ms)[|Merge(ms)| - 1].role == ms[|ms| - 1].role
  {
    if ms != [] {
      var before := ms[..|ms| - 1];
      MergeOrphans(before);
      MergeAlternates(before);
      MergeOneOrphans(Merge(before), ms[|ms| - 1]);
      hide HasResult, Calls, NoOrphans, LastCalls, Alternates;
      assert before == [] ==> Merge(before) == [];
    }
  }

  /** No result that is sent is an orphan if and only if, in the converted history, every result comes in the user's turn
      right after the assistant's turn that called for it. */
  lemma NoOrphansExactly(ms: seq<Msg>)
    ensures NoOrphans(Shape(ms)) <==> Fitting(ms)
  {
    ShapeOrphans(ms);
    MergeOrphans(ms);
  }

  /** A result nobody called for is sent all the same. */
  lemma OrphanIsSent(loads: Loads, said: string, id: string, content: Content)
    requires said != "" && id != ""
    ensures !NoOrphans(Shape(Convert(loads, [FromUser(Some(Plain(said))), Tool(Some(id), content)])))
  {
    var history := [FromUser(Some(Plain(said))), Tool(Some(id), content)];
    var first, second := Msg(User, Plain(said)), Msg(User, Blocks([ToolResult(Some(id), content)]));
    assert history[..1][..0] == [] && history[..1] == [history[0]];
    assert Convert(loads, [history[0]]) == [first];
    assert Convert(loads, history) == [first] + [second];
    var ms := [first, second];
    assert ms[..1] == [first] && [first][..0] == [];
    assert second.content.blocks[0] == ToolResult(Some(id), content);
    assert HasResult(second, id) && !Called([first], id);
    assert !Fitting(ms);
    NoOrphansExactly(ms);
  }
}
