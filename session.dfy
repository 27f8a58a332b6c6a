/** The seller's screen as a state machine over the session map: an
    analysis writes a draft of seven keys, and either confirm button turns
    the draft into one stored interaction and deletes the seven keys. */
module Session {
  import opened Interactions
  import opened ResponseParser
  import opened Wrappers
  import Text

  const ResponseKey: string := "ia_response_completa"
  const InputKey: string := "input_do_vendedor"
  const ProfileKey: string := "perfil_ia_parsed"
  const ReactionKey: string := "reacao_ia_parsed"
  const StrategyKey: string := "estrategia_ia_parsed"
  const TipKey: string := "dica_ia_parsed"
  const NameKey: string := "vendedor_nome"

  /** The keys the confirm buttons delete, in the order of their list. */
  const DraftKeys: seq<string> := [ResponseKey, InputKey, ProfileKey, ReactionKey, StrategyKey, TipKey, NameKey]

  /** The seven keys are different strings, and the draft has exactly
      them as keys. */
  lemma DraftKeysDistinct(response: string, input: string, name: string, a: Analysis)
    ensures forall i, j :: 0 <= i < j < |DraftKeys| ==> DraftKeys[i] != DraftKeys[j]
    ensures Draft(response, input, name, a).Keys == set k | k in DraftKeys
  {
    assert ResponseKey[0] == 'i' && ResponseKey[1] == 'a';
    assert InputKey[0] == 'i' && InputKey[1] == 'n';
    assert ProfileKey[0] == 'p' && ReactionKey[0] == 'r';
    assert StrategyKey[0] == 'e' && TipKey[0] == 'd' && NameKey[0] == 'v';
  }

  lemma UpdateUnion(m: map<string, string>, n: map<string, string>, k: string, v: string)
    ensures (m + n)[k := v] == m + n[k := v]
  {
  }

  /** The two confirm buttons: "✅ Sim, apliquei!" and
      "❌ Ainda não / Não se aplica". */
  datatype Button = AppliedButton | NotAppliedButton

  /** The applied flag each button records. */
  function Flag(b: Button): (flag: string)
    ensures flag == Yes || flag == No
    ensures flag == Yes <==> b == AppliedButton
  {
    match b
    case AppliedButton => Yes
    case NotAppliedButton => No
  }

  /** `m.get(k, default)`. */
  function GetOr(m: map<string, string>, k: string, default: string): string {
    if k in m then m[k] else default
  }

  /** The seven draft entries an analysis writes. */
  function Draft(response: string, input: string, name: string, a: Analysis): map<string, string> {
    map[ResponseKey := response, InputKey := input, NameKey := name,
        ProfileKey := a.profile, ReactionKey := a.reaction,
        StrategyKey := a.strategy, TipKey := a.tip]
  }

  /** What the draft holds under each of its keys. */
  lemma DraftEntries(response: string, input: string, name: string, a: Analysis)
    ensures var d := Draft(response, input, name, a);
            && d[ResponseKey] == response && d[InputKey] == input && d[NameKey] == name
            && d[ProfileKey] == a.profile && d[ReactionKey] == a.reaction
            && d[StrategyKey] == a.strategy && d[TipKey] == a.tip
  {
    DraftKeysDistinct(response, input, name, a);
  }

  class SellerSession {
    /** `st.session_state`, for its string-valued entries. */
    var state: map<string, string>
    /** The documents this session has added to the collection. */
    var stored: seq<Interaction>

    /** The seven draft keys are there together or not at all. */
    ghost predicate Valid()
      reads this
    {
      forall k :: k in DraftKeys ==> (k in state <==> ResponseKey in state)
    }

    constructor ()
      ensures Valid() && state == map[] && stored == []
    {
      state := map[];
      stored := [];
    }

    /** The confirm buttons are only shown while a reply is held. */
    predicate HasDraft()
      reads this
    {
      ResponseKey in state
    }

    /** The "Analisar Objeção e Receber Estratégia" button. With an empty
        description the application only warns; otherwise `response` is
        the classifier's reply, which is kept with the description and the
        name field's text (possibly empty) and parsed into the four
        fields. */
    method Analyze(input: string, name: string, response: string) returns (warned: bool)
      requires Valid()
      modifies this
      ensures Valid() && HasDraft() == (old(HasDraft()) || !warned)
      ensures warned <==> input == ""
      ensures stored == old(stored)
      ensures state == if warned then old(state)
                       else old(state) + Draft(response, input, name, ParseLines(Lines(response)))
    {
      if input == "" {
        return true;
      }
      warned := false;
      DraftKeysDistinct(response, input, name, ParseLines(Lines(response)));
      ghost var entries: map<string, string> := map[];
      assert state == old(state) + entries;
      state := state[ResponseKey := response];
      UpdateUnion(old(state), entries, ResponseKey, response);
      entries := entries[ResponseKey := response];
      assert state == old(state) + entries;
      state := state[InputKey := input];
      UpdateUnion(old(state), entries, InputKey, input);
      entries := entries[InputKey := input];
      assert state == old(state) + entries;
      state := state[NameKey := name];
      UpdateUnion(old(state), entries, NameKey, name);
      entries := entries[NameKey := name];
      assert state == old(state) + entries;
      var a := ParseResponse(response);
      state := state[ProfileKey := a.profile];
      UpdateUnion(old(state), entries, ProfileKey, a.profile);
      entries := entries[ProfileKey := a.profile];
      assert state == old(state) + entries;
      state := state[ReactionKey := a.reaction];
      UpdateUnion(old(state), entries, ReactionKey, a.reaction);
      entries := entries[ReactionKey := a.reaction];
      assert state == old(state) + entries;
      state := state[StrategyKey := a.strategy];
      UpdateUnion(old(state), entries, StrategyKey, a.strategy);
      entries := entries[StrategyKey := a.strategy];
      assert state == old(state) + entries;
      state := state[TipKey := a.tip];
      UpdateUnion(old(state), entries, TipKey, a.tip);
      entries := entries[TipKey := a.tip];
      assert state == old(state) + entries;
      assert entries == Draft(response, input, name, a);
    }

    /** One of the two confirm buttons. It builds the document from the
        draft (the name through `get`, defaulting to "Não informado"),
        stamps it with `now`, hands it to the store, which keeps it only
        when `written` (a failed write is reported and dropped), and
        deletes the draft keys whether or not the write succeeded. */
    method Confirm(button: Button, now: Timestamp, written: bool) returns (document: Option<Interaction>)
      requires Valid()
      modifies this
      ensures Valid() && !HasDraft()
      ensures !old(HasDraft()) ==> document == None && state == old(state) && stored == old(stored)
      ensures old(HasDraft()) ==> document == Some(Interaction(
                old(state)[InputKey], old(state)[ProfileKey], old(state)[ReactionKey],
                old(state)[StrategyKey], old(state)[TipKey], Flag(button),
                GetOr(old(state), NameKey, NotInformed), now))
      ensures old(HasDraft()) ==> state == old(state) - set k | k in DraftKeys
      ensures old(HasDraft()) ==> stored == old(stored) + (if written then [document.value] else [])
      ensures forall k :: k in DraftKeys ==> k !in state
    {
      if ResponseKey !in state {
        return None;
      }
      var doc := Interaction(state[InputKey], state[ProfileKey], state[ReactionKey],
                             state[StrategyKey], state[TipKey], Flag(button),
                             GetOr(state, NameKey, NotInformed), now);
      if written {
        stored := stored + [doc];
      }
      DeleteDraft();
      document := Some(doc);
    }

    /** The loop over the seven keys, deleting each one present. */
    method DeleteDraft()
      modifies this`state
      ensures state == old(state) - set k | k in DraftKeys
    {
      for i := 0 to |DraftKeys|
        invariant state == old(state) - set j | 0 <= j < i :: DraftKeys[j]
      {
        var k := DraftKeys[i];
        if k in state {
          state := state - {k};
        }
        assert (set j | 0 <= j < i + 1 :: DraftKeys[j]) == (set j | 0 <= j < i :: DraftKeys[j]) + {k};
      }
      assert (set j | 0 <= j < |DraftKeys| :: DraftKeys[j]) == set k | k in DraftKeys;
    }
  }

  /** The sample of the seller's flow: the description is analysed with the
      name field left empty, the reply names "O Medroso", and the seller
      presses "not applied". The stored document says "Não" and carries
      the empty name, not "Não informado", because the name key is always
      written by the analysis. */
  method SampleFlow(reaction: string, strategy: string, tip: string, now: Timestamp)
    returns (document: Interaction)
    requires '\n' !in reaction && '\n' !in strategy && '\n' !in tip
    ensures document.applied == No
    ensures document.sellerName == ""
    ensures document.profile == "O Medroso"
    ensures document.input == "Cliente disse que estava caro e eu recuei."
    ensures document.createdAt == now
  {
    var input := "Cliente disse que estava caro e eu recuei.";
    var session := new SellerSession();
    var reply := Text.Join(SampleReply(reaction, strategy, tip), '\n');
    var warned := session.Analyze(input, "", reply);
    ghost var a := ParseLines(Lines(reply));
    SampleReplyProfile(reaction, strategy, tip);
    DraftEntries(reply, input, "", a);
    assert session.state == map[] + Draft(reply, input, "", a) == Draft(reply, input, "", a);
    var saved := session.Confirm(NotAppliedButton, now, true);
    document := saved.value;
    assert session.stored == [document];
  }
}
