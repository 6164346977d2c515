/** The character record the form edits (`CharacterModel`,
    src/layout/CharacterForm.tsx:26-65) and the plain field edit
    (`handleChange`, :229-235).

    The record is a JavaScript object whose fields can be replaced by
    arbitrary keys and values at run time, so it is modelled as a map from
    key to a JSON-like value rather than as a fixed datatype. */
module CharacterRecord {

  /** A field value. `Other` stands for every JSON value the model does not
      look inside: a non-integer number, an array or a nested object, which
      an assist response may carry and the merge copies unchanged. */
  datatype Value = Str(s: string) | Num(n: int) | Bool(b: bool) | Null | Other

  type Record = map<string, Value>

  const UserIdKey := "user_id"
  const CharacterIdKey := "character_id"
  const ImageNameKey := "image_name"

  /** The fields the assist merge takes from the current record. */
  const IdentityKeys: set<string> := {UserIdKey, CharacterIdKey, ImageNameKey}

  /** The seventeen fields of `CharacterModel`. */
  const ModelKeys: set<string> :=
    {"user_id", "character_id", "name", "age", "personality", "appearance",
     "setting", "story", "hp", "mp", "vit", "dex", "agi", "inte", "luc",
     "fri", "image_name"}

  /** `initialCharacter`: the record the form opens with. */
  const Initial: Record := map[
    "user_id" := Str("test"), "character_id" := Str(""), "name" := Str(""),
    "age" := Num(17), "personality" := Str(""), "appearance" := Str(""),
    "setting" := Str(""), "story" := Str(""), "hp" := Num(100), "mp" := Num(50),
    "vit" := Num(10), "dex" := Num(10), "agi" := Num(10), "inte" := Num(10),
    "luc" := Num(10), "fri" := Num(0), "image_name" := Str("")]

  /** The initial record has exactly the model's fields, the identity fields
      among them, with the identifiers still empty. */
  lemma InitialShape()
    ensures Initial.Keys == ModelKeys
    ensures IdentityKeys <= Initial.Keys
    ensures Initial[CharacterIdKey] == Str("") && Initial[ImageNameKey] == Str("")
  {
  }

  /** `handleChange(key, value)`: the named field becomes the raw input
      string (a number field is not converted back to a number); every
      other field keeps its value and no field disappears. */
  function SetField(rec: Record, key: string, value: string): (r: Record)
    ensures r.Keys == rec.Keys + {key}
    ensures r[key] == Str(value)
    ensures forall k :: k in rec && k != key ==> r[k] == rec[k]
  {
    rec[key := Str(value)]
  }

  /** Editing the same field twice keeps only the last edit. */
  lemma SetFieldLastWins(rec: Record, key: string, v1: string, v2: string)
    ensures SetField(SetField(rec, key, v1), key, v2) == SetField(rec, key, v2)
  {
  }

  /** Edits to different fields commute. */
  lemma SetFieldCommutes(rec: Record, k1: string, v1: string, k2: string, v2: string)
    requires k1 != k2
    ensures SetField(SetField(rec, k1, v1), k2, v2) == SetField(SetField(rec, k2, v2), k1, v1)
  {
  }

  /** Typing into a number field stores text: `age` becomes the string
      "18", not the number 18. */
  lemma SetFieldKeepsText()
    ensures SetField(Initial, "age", "18")["age"] == Str("18")
    ensures SetField(Initial, "age", "18")["age"] != Num(18)
  {
  }
}
