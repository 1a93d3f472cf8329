/** The state of the `App` component that its handlers change: the dilemmas
    (newest first, each with its replies), the emotion room the user is in and
    the selected dilemma. Each handler is one method; form drafts, the clock
    and the anonymous id arrive as arguments. */
module Board {
  import opened Text
  import opened Records
  import Views

  /** Why a post or a reply was ignored. */
  datatype Rejection = EmptyText | NoEmotion | NothingSelected | RoomMismatch | TooLong

  datatype Outcome = Accepted | Rejected(reason: Rejection)

  /** A reply as `handleAddReply` creates it: non-blank trimmed text within the limit. */
  predicate WellFormedReply(r: Reply) {
    !Blank(r.text) && Utf16Length(r.text) <= MaxReplyLength
  }

  /** A dilemma as the handlers leave it: non-blank text, an emotion, well-formed
      replies and a total equal to the sum of its replies' tokens. */
  predicate WellFormed(d: Dilemma) {
    && !Blank(d.text)
    && d.emotion != ""
    && (forall k :: 0 <= k < |d.replies| ==> WellFormedReply(d.replies[k]))
    && Consistent(d)
  }

  class Board {
    /** The anonymous id of this client, used as author of posts and replies. */
    const anonId: string
    var dilemmas: seq<Dilemma>
    var room: Option<EmotionId>
    var selected: Option<Id>

    ghost predicate Valid()
      reads this
    {
      forall i :: 0 <= i < |dilemmas| ==> WellFormed(dilemmas[i])
    }

    /** The board at start-up: no dilemmas, no selection, and the room saved
        by an earlier session when there is a non-empty one. */
    constructor (anonId: string, savedRoom: Option<EmotionId>)
      ensures Valid()
      ensures this.anonId == anonId && dilemmas == [] && selected == None
      ensures room == if Present(savedRoom) then savedRoom else None
    {
      this.anonId := anonId;
      dilemmas := [];
      selected := None;
      room := if Present(savedRoom) then savedRoom else None;
    }

    /** `handlePostDilemma`: a blank text or a missing emotion changes nothing;
        otherwise a new dilemma with the trimmed text, no replies and no tokens
        goes in front, becomes the selection, and the first post made outside
        any room joins the posted emotion's room. */
    method PostDilemma(text: string, emotion: Option<EmotionId>, freshId: Id, createdAt: string)
      returns (outcome: Outcome)
      requires Valid()
      modifies this
      ensures Valid()
      ensures outcome == if Trim(text) == [] then Rejected(EmptyText)
                         else if !Present(emotion) then Rejected(NoEmotion)
                         else Accepted
      ensures outcome.Rejected? ==>
        dilemmas == old(dilemmas) && room == old(room) && selected == old(selected)
      ensures outcome.Accepted? ==>
        && dilemmas == [Dilemma(freshId, Trim(text), emotion.value, createdAt, anonId, [], 0)] + old(dilemmas)
        && selected == Some(freshId)
        && room == if Present(old(room)) then old(room) else emotion
    {
      var trimmed := Trim(text);
      if trimmed == [] {
        return Rejected(EmptyText);
      }
      if !Present(emotion) {
        return Rejected(NoEmotion);
      }
      var posted := Dilemma(freshId, trimmed, emotion.value, createdAt, anonId, [], 0);
      TrimmedNotBlank(text);
      PrependKeepsWellFormed(posted, dilemmas);
      dilemmas := [posted] + dilemmas;
      selected := Some(freshId);
      if !Present(room) {
        room := emotion;
      }
      outcome := Accepted;
    }

    /** `handleSelectDilemma`: the id becomes the selection whether or not a
        dilemma carries it. */
    method SelectDilemma(id: Id)
      requires Valid()
      modifies this`selected
      ensures Valid()
      ensures selected == Some(id)
    {
      selected := Some(id);
    }

    /** `handleAddReply`: the reply goes to the selected dilemma. Nothing
        changes when no dilemma is selected, when the room is not the selected
        dilemma's emotion, when the trimmed text is empty or longer than the
        limit; otherwise every dilemma carrying the selected id gets the new
        reply, with no tokens, at the end of its replies. */
    method AddReply(text: string, freshId: Id) returns (outcome: Outcome)
      requires Valid()
      modifies this`dilemmas
      ensures Valid()
      ensures var target := SelectedDilemma(old(dilemmas), selected);
        outcome == if target.None? then Rejected(NothingSelected)
                   else if room != Some(target.value.emotion) then Rejected(RoomMismatch)
                   else if Trim(text) == [] then Rejected(EmptyText)
                   else if Utf16Length(Trim(text)) > MaxReplyLength then Rejected(TooLong)
                   else Accepted
      ensures outcome.Rejected? ==> dilemmas == old(dilemmas)
      ensures outcome.Accepted? ==>
        && |dilemmas| == |old(dilemmas)|
        && forall i :: 0 <= i < |dilemmas| ==>
             dilemmas[i] == if old(dilemmas)[i].id == selected.value
                            then AppendReply(old(dilemmas)[i], Reply(freshId, Trim(text), anonId, 0))
                            else old(dilemmas)[i]
    {
      var target := SelectedDilemma(dilemmas, selected);
      if target.None? {
        return Rejected(NothingSelected);
      }
      if room != Some(target.value.emotion) {
        return Rejected(RoomMismatch);
      }
      var trimmed := Trim(text);
      if trimmed == [] {
        return Rejected(EmptyText);
      }
      if Utf16Length(trimmed) > MaxReplyLength {
        return Rejected(TooLong);
      }
      var reply := Reply(freshId, trimmed, anonId, 0);
      TrimmedNotBlank(text);
      var id := target.value.id;
      var before := dilemmas;
      dilemmas := seq(|before|, i requires 0 <= i < |before| =>
        if before[i].id == id then AppendReply(before[i], reply) else before[i]);
      forall i | 0 <= i < |dilemmas| ensures WellFormed(dilemmas[i]) {
        if before[i].id == id {
          AppendKeepsWellFormed(before[i], reply);
        }
      }
      outcome := Accepted;
    }

    /** `handleJoinEmotionRoom`: any emotion id becomes the room and the
        selection is cleared. */
    method JoinRoom(emotion: EmotionId)
      requires Valid()
      modifies this`room, this`selected
      ensures Valid()
      ensures room == Some(emotion) && selected == None
    {
      room := Some(emotion);
      selected := None;
    }

    /** `handleLeaveRoom`: no room and no selection. */
    method LeaveRoom()
      requires Valid()
      modifies this`room, this`selected
      ensures Valid()
      ensures room == None && selected == None
    {
      room := None;
      selected := None;
    }

    /** `handleGiveToken`: in every dilemma carrying `dilemmaId`, every reply
        carrying `replyId` gains one token and the dilemma's total is
        recomputed; other dilemmas stay as they are, and an id no dilemma
        carries changes nothing. */
    method GiveToken(dilemmaId: Id, replyId: Id)
      requires Valid()
      modifies this`dilemmas
      ensures Valid()
      ensures |dilemmas| == |old(dilemmas)|
      ensures forall i :: 0 <= i < |dilemmas| ==>
        dilemmas[i] == if old(dilemmas)[i].id == dilemmaId
                       then GiveTokenIn(old(dilemmas)[i], replyId)
                       else old(dilemmas)[i]
      ensures (forall i :: 0 <= i < |old(dilemmas)| ==> old(dilemmas)[i].id != dilemmaId) ==>
        dilemmas == old(dilemmas)
    {
      var before := dilemmas;
      dilemmas := seq(|before|, i requires 0 <= i < |before| =>
        if before[i].id == dilemmaId then GiveTokenIn(before[i], replyId) else before[i]);
      forall i | 0 <= i < |dilemmas| ensures WellFormed(dilemmas[i]) {
        if before[i].id == dilemmaId {
          var d := before[i];
          assert WellFormed(d);
          assert forall k :: 0 <= k < |d.replies| ==>
            GiveTokenIn(d, replyId).replies[k].text == d.replies[k].text;
        }
      }
    }

    /** `filteredDilemmas` of the current state. */
    function Visible(): seq<Dilemma>
      reads this
    {
      Views.RoomView(dilemmas, room)
    }

    /** `trendingDilemmas` of the current state. */
    function TrendingNow(): seq<Dilemma>
      reads this
    {
      Views.Trending(dilemmas, room)
    }
  }

  /** A non-empty trimmed text is not blank. */
  lemma TrimmedNotBlank(text: string)
    requires Trim(text) != []
    ensures !Blank(Trim(text))
  {
    TrimStrips(text);
    assert !IsTrimmable(Trim(text)[0]);
  }

  /** Putting a well-formed dilemma in front of well-formed ones. */
  lemma PrependKeepsWellFormed(d: Dilemma, ds: seq<Dilemma>)
    requires WellFormed(d) && forall i :: 0 <= i < |ds| ==> WellFormed(ds[i])
    ensures forall i :: 0 <= i < |ds| + 1 ==> WellFormed(([d] + ds)[i])
  {
    forall i | 0 < i < |ds| + 1 ensures WellFormed(([d] + ds)[i]) {
      assert ([d] + ds)[i] == ds[i - 1];
    }
  }

  /** A well-formed dilemma stays well-formed when a well-formed reply with no
      tokens is appended, although its total is not recomputed. */
  lemma AppendKeepsWellFormed(d: Dilemma, reply: Reply)
    requires WellFormed(d) && WellFormedReply(reply) && reply.tokens == 0
    ensures WellFormed(AppendReply(d, reply))
  {
    var r := AppendReply(d, reply);
    forall k | 0 <= k < |r.replies| ensures WellFormedReply(r.replies[k]) {
      if k < |d.replies| {
        assert r.replies[k] == r.replies[..|d.replies|][k];
      }
    }
  }
}
