/**
 * The entities of the time-tracking dashboard (types.ts).
 * Dates, times, ids, currency and country codes are opaque strings;
 * every TypeScript `number` is a `real`.
 */
module Types {

  import opened Wrappers

  /** The 12 interface languages (SupportedLanguage). */
  datatype Language = Pt | PtBR | En | Es | Fr | It | De | Nl | Ga | Hi | Ur | Ar

  datatype Role = Master | Employee

  /** A social-security or income-tax rule: a percentage of gross pay or a fixed amount. */
  datatype DeductionKind = Percentage | Fixed
  datatype Deduction = Deduction(kind: DeductionKind, value: real)

  datatype Profession = Office | Construction | Crane | Electrician | Plumber | Carpenter
  datatype Accessory = NoAccessory | Glasses | Sunglasses
  datatype Mouth = Smile | Neutral | Braces
  datatype Gender = Male | Female

  datatype AvatarConfig = AvatarConfig(
    skinTone: string,
    profession: Profession,
    hairColor: string,
    accessory: Accessory,
    mouth: Mouth,
    gender: Gender)

  /** One account: identity, credentials and payroll configuration. */
  datatype User = User(
    id: string,
    username: string,
    password: Option<string>,
    name: string,
    role: Role,
    currency: string,
    language: Language,
    country: string,
    hourlyRate: real,
    nif: Option<string>,
    email: Option<string>,
    phone: Option<string>,
    isActive: bool,
    subscriptionDate: Option<string>,
    isProvisionalPassword: Option<bool>,
    socialSecurity: Option<Deduction>,
    irs: Option<Deduction>,
    profilePicture: Option<string>,
    avatarConfig: Option<AvatarConfig>)

  /** A chat message; `originalLanguage` is the sender's language when it was sent. */
  datatype ChatMessage = ChatMessage(
    id: string,
    userId: string,
    text: string,
    timestamp: string,
    originalLanguage: Language)

  /** One day's work entry. It has no owner field: `date` is the only key. */
  datatype TimeRecord = TimeRecord(
    id: string,
    date: string,
    startTime: string,
    endTime: string,
    lunchDuration: real,
    isAbsent: bool,
    notes: Option<string>,
    workSite: Option<string>,
    advance: Option<real>,
    manualSocialSecurity: Option<real>)
}
