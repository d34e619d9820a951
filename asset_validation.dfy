/** Field validation of the manual asset-creation handler and the
    organisation fallback used by the read handlers. */
module AssetValidation {
  import opened Outcomes

  /** The only organisation allowed to create assets (the creator org). */
  const CreatorOrg: int := 2

  /** Organisation used when the request context carries no usable one. */
  const DefaultOrg: int := 1

  /** Description stored when the form leaves it empty. */
  const NoDescription: string := "暂无描述"

  /** The closed vocabularies of the create form. */
  const AllowedQuality: set<string> :=
    {"白色", "浅蓝色", "深蓝色", "紫色", "粉紫色", "红色", "金色"}
  const AllowedWear: set<string> :=
    {"崭新出厂", "略有磨损", "久经沙场", "破损不堪", "战痕累累"}
  const AllowedCategory: set<string> :=
    {"匕首", "手套", "步枪", "手枪", "冲锋枪", "霰弹枪", "机枪", "印花", "探员", "其他"}

  /** Why the handler refuses a creation; the first three are answered as
      server errors, the others as bad requests. */
  datatype CreateError =
    | MissingUser      // "用户信息获取失败"
    | MissingOrg       // "组织信息获取失败"
    | NotCreatorOrg    // "只有属于NFT创建者组织的用户可以上传NFT"
    | EmptyName        // "请求参数错误"
    | BadQuality       // "品质颜色非法"
    | BadWear          // "磨损度等级非法"
    | BadCategory      // "枪械种类非法"
    | EmptyWearValue   // "磨损度值不能为空"
    | WearValueNotUnit // "磨损度值必须是 0~1 小数"

  /** The posted form fields, as strings ("" when absent). */
  datatype CreateForm = CreateForm(
    name: string,
    description: string,
    quality: string,
    wear: string,
    category: string,
    wearValue: string)

  /** The values the handler goes on with once every check has passed. */
  datatype ValidForm = ValidForm(
    userID: int,
    org: int,
    name: string,
    description: string,
    quality: string,
    wear: string,
    category: string,
    wearValue: string)

  /** The check chain of `AssetHandler.CreateAsset`, up to the image upload.
      `userID` and `org` are the context values (None when absent);
      `unitFloat(s)` stands for "`strconv.ParseFloat(s, 64)` succeeds and
      the value is neither < 0 nor > 1" (so "NaN" passes). Each error is returned exactly when every earlier
      check passed and its own check fails. */
  function ValidateCreate(userID: Option<int>, org: Option<int>, f: CreateForm,
                          unitFloat: string -> bool): (r: Result<ValidForm, CreateError>)
    ensures r == Err(MissingUser) <==> userID.None?
    ensures r == Err(MissingOrg) <==> userID.Some? && org.None?
    ensures r == Err(NotCreatorOrg) <==> userID.Some? && org.Some? && org.value != CreatorOrg
    ensures r == Err(EmptyName) <==> userID.Some? && org == Some(CreatorOrg) && f.name == ""
    ensures r == Err(BadQuality) <==>
      userID.Some? && org == Some(CreatorOrg) && f.name != "" && f.quality !in AllowedQuality
    ensures r == Err(BadWear) <==>
      userID.Some? && org == Some(CreatorOrg) && f.name != "" && f.quality in AllowedQuality
      && f.wear !in AllowedWear
    ensures r == Err(BadCategory) <==>
      userID.Some? && org == Some(CreatorOrg) && f.name != "" && f.quality in AllowedQuality
      && f.wear in AllowedWear && f.category !in AllowedCategory
    ensures r == Err(EmptyWearValue) <==>
      userID.Some? && org == Some(CreatorOrg) && f.name != "" && f.quality in AllowedQuality
      && f.wear in AllowedWear && f.category in AllowedCategory && f.wearValue == ""
    ensures r == Err(WearValueNotUnit) <==>
      userID.Some? && org == Some(CreatorOrg) && f.name != "" && f.quality in AllowedQuality
      && f.wear in AllowedWear && f.category in AllowedCategory && f.wearValue != ""
      && !unitFloat(f.wearValue)
    ensures r.Ok? ==>
      && userID.Some? && r.value.userID == userID.value
      && r.value.org == CreatorOrg && org == Some(CreatorOrg)
      && r.value.name == f.name != ""
      && r.value.description != ""
      && (f.description != "" ==> r.value.description == f.description)
      && (f.description == "" ==> r.value.description == NoDescription)
      && r.value.quality == f.quality && f.quality in AllowedQuality
      && r.value.wear == f.wear && f.wear in AllowedWear
      && r.value.category == f.category && f.category in AllowedCategory
      && r.value.wearValue == f.wearValue != "" && unitFloat(f.wearValue)
  {
    if userID.None? then Err(MissingUser)
    else if org.None? then Err(MissingOrg)
    else if org.value != CreatorOrg then Err(NotCreatorOrg)
    else if f.name == "" then Err(EmptyName)
    else
      var description := if f.description == "" then NoDescription else f.description;
      if f.quality !in AllowedQuality then Err(BadQuality)
      else if f.wear !in AllowedWear then Err(BadWear)
      else if f.category !in AllowedCategory then Err(BadCategory)
      else if f.wearValue == "" then Err(EmptyWearValue)
      else if !unitFloat(f.wearValue) then Err(WearValueNotUnit)
      else Ok(ValidForm(userID.value, org.value, f.name, description,
                        f.quality, f.wear, f.category, f.wearValue))
  }

  /** A value found in the request context. */
  datatype CtxValue = IntValue(n: int) | OtherValue

  /** `orgFromCtx`: the context's organisation when it is a positive int,
      the default organisation otherwise. */
  function OrgFromCtx(v: Option<CtxValue>): (org: int)
    ensures org >= 1
    ensures v.Some? && v.value.IntValue? && v.value.n > 0 ==> org == v.value.n
    ensures !(v.Some? && v.value.IntValue? && v.value.n > 0) ==> org == DefaultOrg
  {
    match v
    case Some(IntValue(n)) => if n > 0 then n else DefaultOrg
    case _ => DefaultOrg
  }
}
