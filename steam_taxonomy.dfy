/** The pure helpers of the Steam service: icon URL, tag and wear-value
    lookups, the rarity and type tables, and the image extension rule. */
module SteamTaxonomy {
  import opened GoStrings
  import opened SteamRemote
  import opened AssetValidation

  /** The image CDN every icon reference is appended to. */
  const IconCDN: string := "https://steamcommunity-a.akamaihd.net/economy/image/"

  /** `steamIcon`: no URL for an empty reference, otherwise the CDN prefix
      followed by the reference, which can be read back from the URL. */
  function SteamIcon(icon: string): (url: string)
    ensures url == "" <==> icon == ""
    ensures icon != "" ==> |url| == |IconCDN| + |icon| && url[..|IconCDN|] == IconCDN
    ensures icon != "" ==> url[|IconCDN|..] == icon
  {
    if icon == "" then "" else IconCDN + icon
  }

  /** Tag `i` is the first one of category `cat`. */
  predicate FirstTagAt(tags: seq<SteamTag>, cat: string, i: int)
  {
    0 <= i < |tags| && tags[i].category == cat
    && forall j :: 0 <= j < i ==> tags[j].category != cat
  }

  /** The name `findTag` returns: that of the first tag of the category,
      or "" when there is none. */
  function TagOf(tags: seq<SteamTag>, cat: string): (name: string)
    ensures forall i :: FirstTagAt(tags, cat, i) ==> name == tags[i].localizedTagName
    ensures (forall i :: 0 <= i < |tags| ==> tags[i].category != cat) ==> name == ""
  {
    if tags == [] then ""
    else if tags[0].category == cat then tags[0].localizedTagName
    else
      var name := TagOf(tags[1..], cat);
      assert forall i :: FirstTagAt(tags, cat, i) ==> FirstTagAt(tags[1..], cat, i - 1);
      name
  }

  /** `findTag`: scans the tags in order and returns at the first match. */
  method FindTag(tags: seq<SteamTag>, cat: string) returns (name: string)
    ensures name == TagOf(tags, cat)
  {
    for i := 0 to |tags|
      invariant TagOf(tags, cat) == TagOf(tags[i..], cat)
    {
      assert tags[i..][1..] == tags[i + 1..];
      if tags[i].category == cat {
        return tags[i].localizedTagName;
      }
    }
    return "";
  }

  /** The seven rarity labels the quality table knows. */
  const KnownRarities: set<string> :=
    {"消费级", "工业级", "军规级", "受限", "保密", "隐秘", "违禁"}

  /** `mapRarityToQuality`: the seven known rarities map to colours of the
      creation form's quality vocabulary; anything else, "" included, maps
      to "" and is left for the caller to reject. */
  function MapRarityToQuality(rarity: string): (quality: string)
    ensures quality != "" <==> rarity in KnownRarities
    ensures quality != "" ==> quality in AllowedQuality
  {
    match rarity
    case "消费级" => "白色"
    case "工业级" => "浅蓝色"
    case "军规级" => "深蓝色"
    case "受限" => "紫色"
    case "保密" => "粉紫色"
    case "隐秘" => "红色"
    case "违禁" => "金色"
    case _ => ""
  }

  /** The rarity table is one-to-one and onto the quality vocabulary: every
      allowed quality is the image of exactly one known rarity. */
  lemma RarityTableIsBijection()
    ensures forall q :: q in AllowedQuality ==>
      exists r :: r in KnownRarities && MapRarityToQuality(r) == q
    ensures forall r1, r2 :: r1 in KnownRarities && r2 in KnownRarities && r1 != r2 ==>
      MapRarityToQuality(r1) != MapRarityToQuality(r2)
  {
  }

  /** The thirteen remote type labels the category table knows. */
  const KnownTypes: set<string> :=
    {"手枪", "步枪", "狙击步枪", "微型冲锋枪", "冲锋枪", "霰弹枪", "机枪",
     "匕首", "手套", "贴纸", "印花", "特工", "探员"}

  /** The catch-all category. */
  const OtherCategory: string := "其他"

  /** `mapTypeToCategory`: never empty, always in the creation form's
      category vocabulary, and the catch-all for every unknown label. */
  function MapTypeToCategory(typ: string): (category: string)
    ensures category != ""
    ensures category in AllowedCategory
    ensures typ !in KnownTypes ==> category == OtherCategory
    ensures typ in KnownTypes ==> category != OtherCategory
  {
    match typ
    case "手枪" => "手枪"
    case "步枪" => "步枪"
    case "狙击步枪" => "步枪"
    case "微型冲锋枪" => "冲锋枪"
    case "冲锋枪" => "冲锋枪"
    case "霰弹枪" => "霰弹枪"
    case "机枪" => "机枪"
    case "匕首" => "匕首"
    case "手套" => "手套"
    case "贴纸" => "印花"
    case "印花" => "印花"
    case "特工" => "探员"
    case "探员" => "探员"
    case _ => OtherCategory
  }

  /** The synonyms the type table collapses. */
  lemma TypeSynonymsCollapse()
    ensures MapTypeToCategory("狙击步枪") == MapTypeToCategory("步枪") == "步枪"
    ensures MapTypeToCategory("微型冲锋枪") == MapTypeToCategory("冲锋枪") == "冲锋枪"
    ensures MapTypeToCategory("贴纸") == MapTypeToCategory("印花") == "印花"
    ensures MapTypeToCategory("特工") == MapTypeToCategory("探员") == "探员"
  {
  }

  /** Every category of the creation form is the image of some label. */
  lemma EveryCategoryReached()
    ensures forall c :: c in AllowedCategory ==> exists t :: MapTypeToCategory(t) == c
  {
    forall c | c in AllowedCategory
      ensures exists t :: MapTypeToCategory(t) == c
    {
      if c == OtherCategory {
        assert MapTypeToCategory("") == c;
      } else {
        assert MapTypeToCategory(c) == c;
      }
    }
  }

  /** The property name holding the wear fraction. */
  const WearPropName: string := "磨损率"

  /** A property entry that carries a wear value. */
  predicate IsWearEntry(kv: SteamPropKV)
  {
    kv.name == WearPropName && kv.floatValue != ""
  }

  /** Entry `i` is the first wear entry. */
  predicate FirstWearAt(props: seq<SteamPropKV>, i: int)
  {
    0 <= i < |props| && IsWearEntry(props[i])
    && forall j :: 0 <= j < i ==> !IsWearEntry(props[j])
  }

  /** The value `findWearValue` returns: the float value of the first wear
      entry, or "" when there is none. */
  function WearValueOf(props: seq<SteamPropKV>): (v: string)
    ensures v == "" <==> forall i :: 0 <= i < |props| ==> !IsWearEntry(props[i])
    ensures forall i :: FirstWearAt(props, i) ==> v == props[i].floatValue
  {
    if props == [] then ""
    else if IsWearEntry(props[0]) then props[0].floatValue
    else
      var v := WearValueOf(props[1..]);
      assert forall i :: 1 <= i < |props| ==> props[i] == props[1..][i - 1];
      v
  }

  /** `findWearValue`: scans the entries in order and returns at the first
      wear entry. */
  method FindWearValue(w: SteamPropsWrap) returns (v: string)
    ensures v == WearValueOf(w.props)
  {
    for i := 0 to |w.props|
      invariant WearValueOf(w.props) == WearValueOf(w.props[i..])
    {
      assert w.props[i..][1..] == w.props[i + 1..];
      if IsWearEntry(w.props[i]) {
        return w.props[i].floatValue;
      }
    }
    return "";
  }

  /** The extension rule of `downloadImage`: ".png" exactly when the
      Content-Type header mentions "png", ".jpg" otherwise. */
  function ImageExtension(contentType: string): (ext: string)
    ensures ext == ".png" <==> Contains(contentType, "png")
    ensures ext == ".jpg" <==> !Contains(contentType, "png")
  {
    if Contains(contentType, "png") then ".png" else ".jpg"
  }
}
