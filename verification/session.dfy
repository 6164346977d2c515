/** One editing session of the form component (`CharacterForm`,
    src/layout/CharacterForm.tsx:146-334) as a state machine: the record, the
    enemy/ally choice and the selected upload, driven by the user's events.
    Requests are treated as completing before the next event. */
module Session {
  import opened Wrappers
  import opened CharacterRecord
  import opened Timestamp
  import opened Upload
  import opened Identifiers
  import opened Sync

  datatype State = State(character: Record, isEnemy: Option<bool>, selectedFile: Option<File>)

  /** The component's state after mounting: the initial record, no choice,
      no file (the derivation effect runs on mount but returns at once). */
  const Start := State(Initial, None, None)

  datatype Event =
    | Drop(files: seq<File>)                       // files dropped on the zone
    | ChooseCategory(value: string, now: Clock)    // a radio button, with the clock at that moment
    | Edit(key: string, value: string)             // typing into a field
    | Submit(outcome: Exchange)                    // the registration request
    | AskAssist(outcome: Exchange)                 // the AI-assist request

  /** The next state. Choosing a category sets the flag to `value == "true"`;
      the derivation effect depends on the flag alone, so it runs only when
      the flag actually changes, using the file selected at that moment. */
  function Step(s: State, e: Event): (t: State)
    ensures e.Drop? ==> t == s.(selectedFile := OnDrop(s.selectedFile, e.files))
    ensures e.ChooseCategory? && s.isEnemy == Some(e.value == "true") ==> t == s
    ensures e.Submit? ==> t == s
    ensures !e.ChooseCategory? ==> t.isEnemy == s.isEnemy
    ensures e.ChooseCategory? ==> t.isEnemy == Some(e.value == "true")
  {
    match e
    case Drop(files) => s.(selectedFile := OnDrop(s.selectedFile, files))
    case ChooseCategory(value, now) =>
      var flag := value == "true";
      if s.isEnemy == Some(flag) then s
      else s.(isEnemy := Some(flag), character := Derive(s.character, Some(flag), now, s.selectedFile))
    case Edit(key, value) => s.(character := SetField(s.character, key, value))
    case Submit(outcome) => s.(character := Register(s.character, outcome).0)
    case AskAssist(outcome) => s.(character := Assist(s.character, outcome).0)
  }

  /** The state after a sequence of events. Once a category is chosen it is
      never unset again, and a run of registrations changes nothing. */
  function Run(s: State, events: seq<Event>): (t: State)
    ensures s.isEnemy.Some? ==> t.isEnemy.Some?
    ensures (forall i :: 0 <= i < |events| ==> events[i].Submit?) ==> t == s
    decreases |events|
  {
    if events == [] then s else Run(Step(s, events[0]), events[1..])
  }

  /** The identity fields are never lost: every step keeps them present. */
  lemma StepKeepsIdentity(s: State, e: Event)
    requires IdentityKeys <= s.character.Keys
    ensures IdentityKeys <= Step(s, e).character.Keys
  {
  }

  /** In every session the record holds `user_id`, `character_id` and
      `image_name`, so the assist merge always finds them. */
  lemma {:induction false} RunKeepsIdentity(s: State, events: seq<Event>)
    requires IdentityKeys <= s.character.Keys
    ensures IdentityKeys <= Run(s, events).character.Keys
    decreases |events|
  {
    if events != [] {
      StepKeepsIdentity(s, events[0]);
      RunKeepsIdentity(Step(s, events[0]), events[1..]);
    }
  }

  lemma SessionKeepsIdentity(events: seq<Event>)
    ensures IdentityKeys <= Run(Start, events).character.Keys
  {
    InitialShape();
    RunKeepsIdentity(Start, events);
  }

  /** Choosing a different category stamps a fresh id pair that share their
      prefix; choosing the same category again changes nothing. */
  lemma ChooseCategoryStamps(s: State, value: string, now: Clock)
    ensures var t := Step(s, ChooseCategory(value, now));
      && t.isEnemy == Some(value == "true")
      && (s.isEnemy != Some(value == "true") ==>
            && t.character[CharacterIdKey] == Str(CharacterId(value == "true", now))
            && t.character[ImageNameKey] == Str(CharacterId(value == "true", now) + "." + Extension(s.selectedFile)))
      && Step(t, ChooseCategory(value, now)) == t
  {
  }

  /** Dropping a file after the category was chosen does not rename the
      image: the extension reflects the file selected at choice time. */
  lemma DropKeepsRecord(s: State, files: seq<File>)
    ensures Step(s, Drop(files)).character == s.character
  {
  }

  /** A failed assist, and any registration, leave the whole state as it
      was. */
  lemma FailedRequestsChangeNothing(s: State, ex: Exchange)
    ensures Step(s, Submit(ex)) == s
    ensures Assist(s.character, ex).1 != Succeeded ==> Step(s, AskAssist(ex)) == s
  {
  }
}
