/** The user-information store (`store.js`): one reducer over a map of
    profile fields, and its two action creators. */
module Store {
  import opened Wrappers

  const ChangeType: string := "CHANGER_INFORMATIONS"
  const ResetType: string := "REINITIALISER_INFORMATIONS"

  /** An action: its type and, for a change, the fields to set. */
  datatype Action<V> = Action(kind: string, payload: Option<map<string, V>>)

  /** `changer_infos(informations)`: a change carrying the fields as given. */
  function ChangeInfos<V>(informations: Option<map<string, V>>): (a: Action<V>)
    ensures a.kind == ChangeType && a.payload == informations
  {
    Action(ChangeType, informations)
  }

  /** `reinitialiser(informations)`: a reset whatever the argument, which is dropped. */
  function Reset<V>(informations: Option<map<string, V>>): (a: Action<V>)
    ensures a.kind == ResetType && a.payload.None?
  {
    Action(ResetType, None)
  }

  /** The reducer. A missing state starts from the empty object; a reset
      returns it; a change spreads the payload over the state (a missing
      payload spreads nothing); any other action leaves the state. */
  function UserInfo<V>(state: Option<map<string, V>>, action: Action<V>): (r: map<string, V>)
    ensures action.kind == ResetType ==> r == map[]
    ensures action.kind == ChangeType && action.payload.Some? ==>
      r.Keys == state.GetOr(map[]).Keys + action.payload.value.Keys &&
      (forall k :: k in action.payload.value ==> r[k] == action.payload.value[k]) &&
      (forall k :: k in state.GetOr(map[]) && k !in action.payload.value ==> r[k] == state.GetOr(map[])[k])
    ensures action.kind == ChangeType && action.payload.None? ==> r == state.GetOr(map[])
    ensures action.kind != ResetType && action.kind != ChangeType ==> r == state.GetOr(map[])
  {
    var s := state.GetOr(map[]);
    if action.kind == ResetType then map[]
    else if action.kind == ChangeType then
      match action.payload
      case None => s
      case Some(p) => s + p
    else s
  }

  /** The store's first state: the reducer applied to no state and an unknown action. */
  lemma InitialState<V>(kind: string)
    requires kind != ResetType && kind != ChangeType
    ensures UserInfo<V>(None, Action(kind, None)) == map[]
  {
  }

  /** Applying the same change twice is the same as applying it once. */
  lemma ChangeIdempotent<V>(state: map<string, V>, informations: Option<map<string, V>>)
    ensures UserInfo(Some(UserInfo(Some(state), ChangeInfos(informations))), ChangeInfos(informations))
         == UserInfo(Some(state), ChangeInfos(informations))
  {
  }

  /** Two changes in a row are one change with the later fields winning. */
  lemma ChangesCompose<V>(state: map<string, V>, p: map<string, V>, q: map<string, V>)
    ensures UserInfo(Some(UserInfo(Some(state), ChangeInfos(Some(p)))), ChangeInfos(Some(q)))
         == UserInfo(Some(state), ChangeInfos(Some(p + q)))
  {
  }

  /** A reset forgets every change made before it. */
  lemma ResetForgets<V>(state: map<string, V>, informations: Option<map<string, V>>, ignored: Option<map<string, V>>)
    ensures UserInfo(Some(UserInfo(Some(state), ChangeInfos(informations))), Reset(ignored)) == map[]
  {
  }

  /** Applying a list of actions in dispatch order. */
  function Dispatch<V>(state: map<string, V>, actions: seq<Action<V>>): (r: map<string, V>)
    decreases |actions|
  {
    if |actions| == 0 then state else Dispatch(UserInfo(Some(state), actions[0]), actions[1..])
  }

  /** Action `i` sets `key`. */
  predicate Sets<V>(actions: seq<Action<V>>, i: int, key: string)
  {
    0 <= i < |actions| && actions[i].payload.Some? && key in actions[i].payload.value
  }

  /** Action `i` is the last one to set `key`. */
  predicate LastSets<V>(actions: seq<Action<V>>, i: int, key: string)
  {
    Sets(actions, i, key) && forall j :: i < j < |actions| ==> !Sets(actions, j, key)
  }

  /** After a run of changes each field holds the value of the last change
      that set it, or its value before the run if none did. */
  lemma {:induction false} DispatchChanges<V>(state: map<string, V>, actions: seq<Action<V>>, key: string)
    requires forall i :: 0 <= i < |actions| ==> actions[i].kind == ChangeType
    ensures key in Dispatch(state, actions) <==> key in state || exists i :: Sets(actions, i, key)
    ensures forall i :: LastSets(actions, i, key) ==> Dispatch(state, actions)[key] == actions[i].payload.value[key]
    decreases |actions|
  {
    if |actions| > 0 {
      var next := UserInfo(Some(state), actions[0]);
      var rest := actions[1..];
      DispatchChanges(next, rest, key);
      assert forall j :: 0 <= j < |rest| ==> (Sets(rest, j, key) <==> Sets(actions, j + 1, key));
      forall i | LastSets(actions, i, key)
        ensures Dispatch(state, actions)[key] == actions[i].payload.value[key]
      {
        if i > 0 {
          assert LastSets(rest, i - 1, key);
        } else {
          assert forall j :: 0 <= j < |rest| ==> !Sets(rest, j, key);
          DispatchUntouched(next, rest, key);
        }
      }
      assert key in next <==> key in state || Sets(actions, 0, key);
      if exists i :: Sets(actions, i, key) {
        var i :| Sets(actions, i, key);
        if i > 0 {
          assert Sets(rest, i - 1, key);
        }
      }
      if exists j :: Sets(rest, j, key) {
        var j :| Sets(rest, j, key);
        assert Sets(actions, j + 1, key);
      }
    }
  }

  /** Changes that do not mention a field keep its value. */
  lemma {:induction false} DispatchUntouched<V>(state: map<string, V>, actions: seq<Action<V>>, key: string)
    requires key in state
    requires forall i :: 0 <= i < |actions| ==> actions[i].kind == ChangeType
    requires forall j :: !Sets(actions, j, key)
    ensures key in Dispatch(state, actions) && Dispatch(state, actions)[key] == state[key]
    decreases |actions|
  {
    if |actions| > 0 {
      var rest := actions[1..];
      assert !Sets(actions, 0, key);
      assert forall j :: !Sets(rest, j, key) by {
        forall j ensures !Sets(rest, j, key) {
          assert Sets(rest, j, key) ==> Sets(actions, j + 1, key);
        }
      }
      DispatchUntouched(UserInfo(Some(state), actions[0]), rest, key);
    }
  }
}
