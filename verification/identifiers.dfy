/** Identifier derivation: the effect that runs when the enemy/ally choice
    changes (src/layout/CharacterForm.tsx:185-226). It stamps the record with
    a `character_id` and a matching `image_name`. */
module Identifiers {
  import opened Wrappers
  import opened Text
  import opened Decimal
  import opened Timestamp
  import opened CharacterRecord
  import opened Upload

  /** The category token: `"enemy"` for an enemy, `"fixed"` for an ally. */
  function Mode(isEnemy: bool): (m: string)
    ensures |m| == 5
    ensures m == "enemy" <==> isEnemy
  {
    if isEnemy then "enemy" else "fixed"
  }

  /** The image extension. It starts as `png`, becomes `jpg` when the selected
      file's name contains "jpg", and then becomes `png` again when the name
      contains "png": the later check wins. */
  function Extension(file: Option<File>): (ext: string)
    ensures ext == "png" || ext == "jpg"
    ensures ext == "jpg" <==>
      file.Some? && Contains(file.value.name, "jpg") && !Contains(file.value.name, "png")
  {
    var initial := "png";
    var afterJpg := if file.Some? && Contains(file.value.name, "jpg") then "jpg" else initial;
    if file.Some? && Contains(file.value.name, "png") then "png" else afterJpg
  }

  /** `${modeStr}_${yyyymmddhhmmss}_01` */
  function CharacterId(isEnemy: bool, now: Clock): (id: string)
    ensures |id| >= 20
    ensures StartsWith(id, Mode(isEnemy) + "_")
    ensures EndsWith(id, "_01")
  {
    Mode(isEnemy) + "_" + Stamp(now) + "_01"
  }

  /** `${modeStr}_${yyyymmddhhmmss}_01.${exStr}` */
  function ImageName(isEnemy: bool, now: Clock, file: Option<File>): (name: string)
    ensures |name| == |CharacterId(isEnemy, now)| + 4
    ensures StartsWith(name, CharacterId(isEnemy, now) + ".")
  {
    CharacterId(isEnemy, now) + "." + Extension(file)
  }

  /** The effect body: nothing happens while no category is chosen; otherwise
      exactly `image_name` and `character_id` are (re)written and every other
      field keeps its value. */
  function Derive(rec: Record, isEnemy: Option<bool>, now: Clock, file: Option<File>): (r: Record)
    ensures isEnemy.None? ==> r == rec
    ensures isEnemy.Some? ==> r.Keys == rec.Keys + {CharacterIdKey, ImageNameKey}
    ensures isEnemy.Some? ==> r[CharacterIdKey] == Str(CharacterId(isEnemy.value, now))
    ensures isEnemy.Some? ==> r[ImageNameKey] == Str(ImageName(isEnemy.value, now, file))
    ensures forall k :: k in rec && k != CharacterIdKey && k != ImageNameKey ==> r[k] == rec[k]
  {
    match isEnemy
    case None => rec
    case Some(e) =>
      rec[ImageNameKey := Str(ImageName(e, now, file))][CharacterIdKey := Str(CharacterId(e, now))]
  }

  /** The two category prefixes are six characters long and distinct. */
  lemma ModeTokens(isEnemy: bool)
    ensures |Mode(isEnemy) + "_"| == 6
    ensures Mode(isEnemy) + "_" == "enemy_" <==> isEnemy
    ensures Mode(isEnemy) + "_" == "fixed_" <==> !isEnemy
  {
    assert "enemy_"[0] != "fixed_"[0];
  }

  /** Reads a character id back into its category and clock. */
  function ParseCharacterId(id: string): Option<(bool, Clock)> {
    if |id| >= 20 && id[|id| - 3..] == "_01" && (id[..6] == "enemy_" || id[..6] == "fixed_") then
      match ParseStamp(id[6..|id| - 3])
      case Some(c) => Some((id[..6] == "enemy_", c))
      case None => None
    else
      None
  }

  /** The character id records its category and its clock reading: reading
      it back gives both. */
  lemma CharacterIdRoundTrip(isEnemy: bool, now: Clock)
    requires ValidClock(now)
    ensures ParseCharacterId(CharacterId(isEnemy, now)) == Some((isEnemy, now))
  {
    var m, s := Mode(isEnemy) + "_", Stamp(now);
    StampRoundTrip(now);
    var id := CharacterId(isEnemy, now);
    ModeTokens(isEnemy);
    assert id == m + s + "_01";
    assert id[..6] == m;
    assert id[6..|id| - 3] == s;
    assert id[|id| - 3..] == "_01";
  }

  /** Two derivations give the same character id only for the same category
      at the same clock reading; in particular a second later gives a
      different id. */
  lemma CharacterIdInjective(e1: bool, c1: Clock, e2: bool, c2: Clock)
    requires ValidClock(c1) && ValidClock(c2)
    ensures CharacterId(e1, c1) == CharacterId(e2, c2) <==> e1 == e2 && c1 == c2
  {
    CharacterIdRoundTrip(e1, c1);
    CharacterIdRoundTrip(e2, c2);
  }

  /** The shape of a character id: the category token, an underscore, the
      stamp and `_01`; with a four-digit year it is 23 characters long. */
  lemma CharacterIdShape(isEnemy: bool, now: Clock)
    requires ValidClock(now)
    ensures StartsWith(CharacterId(isEnemy, now), "enemy_") <==> isEnemy
    ensures StartsWith(CharacterId(isEnemy, now), "fixed_") <==> !isEnemy
    ensures EndsWith(CharacterId(isEnemy, now), "_01")
    ensures 1000 <= now.year <= 9999 ==> |CharacterId(isEnemy, now)| == 23
  {
    var id := CharacterId(isEnemy, now);
    ModeTokens(isEnemy);
    StampLength14(now);
    assert id[..6] == Mode(isEnemy) + "_";
    assert id[|id| - 3..] == "_01";
  }

  /** The image name is the character id followed by a dot and the
      extension, so the two share their prefix; the text after the image
      name's last dot is the extension. */
  lemma ImageNameSharesId(isEnemy: bool, now: Clock, file: Option<File>)
    ensures StartsWith(ImageName(isEnemy, now, file), CharacterId(isEnemy, now) + ".")
    ensures EndsWith(ImageName(isEnemy, now, file), ".png") || EndsWith(ImageName(isEnemy, now, file), ".jpg")
    ensures AfterLastDot(ImageName(isEnemy, now, file)) == Some(Extension(file))
  {
    DotExtension(CharacterId(isEnemy, now), Extension(file));
  }

  /** A stem, a dot and a `png` or `jpg` extension. */
  lemma DotExtension(stem: string, ext: string)
    requires ext == "png" || ext == "jpg"
    ensures StartsWith(stem + "." + ext, stem + ".")
    ensures EndsWith(stem + "." + ext, ".png") || EndsWith(stem + "." + ext, ".jpg")
    ensures AfterLastDot(stem + "." + ext) == Some(ext)
  {
    var name := (stem + ".") + ext;
    assert name[..|stem + "."|] == stem + ".";
    assert name[|name| - |"." + ext|..] == "." + ext;
    EndsWithDotIff(name, ext);
  }

  /** A name mentioning both formats gets `png` even when it is a JPG file:
      `png_export.jpg` yields a `.png` image name. With no file the
      extension is `png`. */
  lemma ExtensionExamples()
    ensures Extension(Some(File("image/jpg", "png_export.jpg"))) == "png"
    ensures Extension(None) == "png"
  {
    assert StartsWith("png_export.jpg", "png");
  }
}
