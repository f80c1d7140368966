/** The interactive-story endpoints of api/mock.js: `startNarrative` opens a
    session at the root branch 1 with two choices, `makeNarrativeChoice` from
    branch 1 moves to branch 2 or 3 with two further choices, and from any
    other branch ends the story at branch 4 or 5. */
module Narrative {
  import opened Strings

  /** One offered choice; `popularityScore` is a fixed percentage. */
  datatype Choice = Choice(branchId: int, choiceText: string, popularityScore: real)

  /** The session state the endpoints return. */
  datatype NarrativeState = NarrativeState(
    sessionId: string,
    dramaId: int,
    currentBranchId: int,
    currentSceneContent: string,
    isEnding: bool,
    totalChoicesMade: nat,
    availableChoices: seq<Choice>)

  const RootBranchId: int := 1

  const OpeningScene: string := "开场：主角来到咖啡馆，故事即将开始……"
  const OpeningChoices: seq<Choice> := [
    Choice(2, "与神秘人搭话", 72.5),
    Choice(3, "安静观察周围", 27.5)
  ]

  const TalkScene: string := "你与神秘人交谈，他似乎知道一些秘密……"
  const ObserveScene: string := "你选择默默观察，注意到角落里可疑的身影……"
  const SecondChoices: seq<Choice> := [
    Choice(4, "追随可疑身影", 60.2),
    Choice(5, "返回座位继续等待", 39.8)
  ]

  const FollowEnding: string := "你追随而去，揭开了事件的真相，故事在紧张中落幕。"
  const WaitEnding: string := "你选择等待，错过了关键线索，但也收获了片刻宁静。"

  /** `startNarrative(dramaId)` at clock reading `now`: the session id is `'sess-' + Date.now()`. */
  function StartNarrative(dramaId: int, now: nat): (s: NarrativeState)
    ensures s.sessionId == "sess-" + NatToDecimal(now) && s.dramaId == dramaId
    ensures s.currentBranchId == RootBranchId && !s.isEnding && s.totalChoicesMade == 0
    ensures |s.availableChoices| == 2
  {
    NarrativeState("sess-" + NatToDecimal(now), dramaId, RootBranchId, OpeningScene, false, 0, OpeningChoices)
  }

  /** `makeNarrativeChoice({ sessionId, dramaId, branchId, choiceIndex })`: choice index 0 takes the first
      branch and every other index the second; from branch 1 the story goes on, from any other it ends. */
  function MakeNarrativeChoice(sessionId: string, dramaId: int, branchId: int, choiceIndex: int): (s: NarrativeState)
    ensures s.sessionId == sessionId && s.dramaId == dramaId
    ensures s.isEnding <==> branchId != RootBranchId
    ensures s.isEnding <==> s.availableChoices == []
    ensures s.totalChoicesMade == if branchId == RootBranchId then 1 else 2
  {
    if branchId == RootBranchId then
      var next := if choiceIndex == 0 then 2 else 3;
      NarrativeState(sessionId, dramaId, next, if next == 2 then TalkScene else ObserveScene, false, 1, SecondChoices)
    else
      NarrativeState(sessionId, dramaId, if choiceIndex == 0 then 4 else 5,
        if choiceIndex == 0 then FollowEnding else WaitEnding, true, 2, [])
  }

  /** The state reached by choosing `choiceIndex` in state `s`: from the root a middle branch offering
      the second pair of choices, from anywhere else an ending at branch 4 or 5. */
  function Choose(s: NarrativeState, choiceIndex: int): (next: NarrativeState)
    ensures next.sessionId == s.sessionId && next.dramaId == s.dramaId
    ensures s.currentBranchId == RootBranchId ==>
      next.currentBranchId in {2, 3} && !next.isEnding && next.availableChoices == SecondChoices
    ensures s.currentBranchId != RootBranchId ==>
      next.currentBranchId in {4, 5} && next.isEnding && next.availableChoices == []
  {
    MakeNarrativeChoice(s.sessionId, s.dramaId, s.currentBranchId, choiceIndex)
  }

  /** `branchId` names one of the offered choices. */
  predicate Offered(choices: seq<Choice>, branchId: int) {
    exists i :: 0 <= i < |choices| && choices[i].branchId == branchId
  }

  /** Along a session each step lands on a branch the previous state offered: the picked one for an
      offered index, and the second one for any index other than 0. */
  lemma ChosenBranchWasOffered(dramaId: int, now: nat, first: int, second: int)
    ensures var s0 := StartNarrative(dramaId, now);
      var s1 := Choose(s0, first);
      var s2 := Choose(s1, second);
      && Offered(s0.availableChoices, s1.currentBranchId)
      && Offered(s1.availableChoices, s2.currentBranchId)
      && (0 <= first < |s0.availableChoices| ==> s1.currentBranchId == s0.availableChoices[first].branchId)
      && (0 <= second < |s1.availableChoices| ==> s2.currentBranchId == s1.availableChoices[second].branchId)
      && (first != 0 ==> s1.currentBranchId == s0.availableChoices[1].branchId)
      && (second != 0 ==> s2.currentBranchId == s1.availableChoices[1].branchId)
  {
    var s0 := StartNarrative(dramaId, now);
    var s1 := Choose(s0, first);
    var s2 := Choose(s1, second);
    var i := if first == 0 then 0 else 1;
    assert s0.availableChoices[i].branchId == s1.currentBranchId;
    var j := if second == 0 then 0 else 1;
    assert s1.availableChoices[j].branchId == s2.currentBranchId;
  }

  /** Every session ends after exactly two choices, whatever indices are picked: the second state has
      choices and the third is an ending without any, at branch 4 or 5. */
  lemma TwoChoicesEnd(dramaId: int, now: nat, first: int, second: int)
    ensures var s0 := StartNarrative(dramaId, now);
      var s1 := Choose(s0, first);
      var s2 := Choose(s1, second);
      && !s1.isEnding && s1.totalChoicesMade == 1 && s1.availableChoices == SecondChoices
      && s1.currentBranchId in {2, 3}
      && s2.isEnding && s2.totalChoicesMade == 2 && s2.availableChoices == []
      && s2.currentBranchId in {4, 5}
      && s2.sessionId == s0.sessionId && s2.dramaId == dramaId
  {
  }
}
