/**
 * accounts/models.py: the role default of User.save, the next onboarding
 * step of a company, the completeness of a company profile, the customer's
 * full name, and the profile created for a user saved without a role.
 */
module AccountsModels {
  import opened Common

  datatype Role = Customer | Company | Superuser

  /** Which class the record was saved through: User, or one of its proxies. */
  datatype UserKind = PlainUser | CompanyUser | CustomerUser

  /** The class attribute BASE_ROLE: None on User, COMPANY on Company, CUSTOMER on Customer. */
  function BaseRole(kind: UserKind): Option<Role>
  {
    match kind
    case PlainUser => None
    case CompanyUser => Some(Company)
    case CustomerUser => Some(Customer)
  }

  /**
   * The role User.save stores: a falsy role (None or "") is replaced by the
   * class's BASE_ROLE; a set role is kept.
   */
  function DefaultRole(role: Option<Role>, kind: UserKind): (r: Option<Role>)
    ensures role.Some? ==> r == role
    ensures role.None? ==> r == BaseRole(kind)
  {
    if role.None? then BaseRole(kind) else role
  }

  /** The text stored in the role column: the choice's value, or NULL for no role. */
  function RoleText(role: Option<Role>): (v: Value)
    ensures role.None? <==> !Truthy(v)
  {
    match role
    case None => Null
    case Some(Customer) => Str("CUSTOMER")
    case Some(Company) => Str("COMPANY")
    case Some(Superuser) => Str("SUPERUSER")
  }

  /** The role a stored column value denotes; a falsy or unknown text denotes none. */
  function RoleOf(v: Value): (r: Option<Role>)
    ensures r.Some? ==> RoleText(r) == v
  {
    if v == Str("CUSTOMER") then Some(Customer)
    else if v == Str("COMPANY") then Some(Company)
    else if v == Str("SUPERUSER") then Some(Superuser)
    else None
  }

  /** Reading back a stored role gives the role. */
  lemma RoleTextRoundTrip(role: Option<Role>)
    ensures RoleOf(RoleText(role)) == role
  {
  }

  /** Saving twice stores the same role as saving once; proxies always end with a role. */
  lemma DefaultRoleSettles(role: Option<Role>, kind: UserKind)
    ensures DefaultRole(DefaultRole(role, kind), kind) == DefaultRole(role, kind)
    ensures kind != PlainUser ==> DefaultRole(role, kind).Some?
  {
  }

  /** A stored password: the hash of a password, or the unusable marker set_password(None) stores. */
  datatype StoredPassword = Hashed(hash: string) | Unusable

  /** The text of an e-mail address before its first '@' (`email.split('@')[0]`). */
  function EmailPrefix(email: string): (r: string)
    ensures |r| <= |email| && r == email[..|r|]
    ensures '@' !in r
    ensures |r| < |email| ==> email[|r|] == '@'
  {
    if email == [] || email[0] == '@' then []
    else [email[0]] + EmailPrefix(email[1..])
  }

  class User {
    const kind: UserKind
    var role: Option<Role>
    var email: string
    var firstName: string
    var lastName: string
    var password: StoredPassword

    constructor (kind: UserKind, role: Option<Role>, email: string, firstName: string, lastName: string)
      ensures this.kind == kind && this.role == role && this.email == email
      ensures this.firstName == firstName && this.lastName == lastName && password == Unusable
    {
      this.kind := kind;
      this.role := role;
      this.email := email;
      this.firstName := firstName;
      this.lastName := lastName;
      this.password := Unusable;
    }

    /** User.save: fill in the class's base role when the role is falsy. */
    method Save()
      modifies this`role
      ensures role == DefaultRole(old(role), kind)
    {
      if role.None? {
        role := BaseRole(kind);
      }
    }

    /**
     * The post_save receiver create_user_profile for a plain User: a user
     * saved without a role becomes a company and gets a profile whose slug is
     * the part of the e-mail before the '@'; the slug of that new profile is
     * returned. A user with a role is left alone.
     */
    method CreateUserProfile() returns (profileSlug: Option<string>)
      modifies this`role
      ensures old(role).None? ==> role == Some(Company) && profileSlug == Some(EmailPrefix(email))
      ensures old(role).Some? ==> role == old(role) && profileSlug == None
    {
      if role.None? {
        role := Some(Company);
        profileSlug := Some(EmailPrefix(email));
        Save();
      } else {
        profileSlug := None;
      }
    }
  }

  // ---------------------------------------------------------------------
  // Company.get_next_step
  // ---------------------------------------------------------------------

  datatype Step = Step(name: string, model: string)

  const PossibleSteps: seq<Step> :=
    [Step("Crear sede", "location"), Step("Crear profesional", "professional"), Step("Crear servicio", "service")]

  /** The dictionary get_next_step returns: `{}`, or a step name and its URL name. */
  datatype NextStep = NoStep | Next(name: string, urlname: string)

  /** The position of the first zero in `sizes` at or after `from`. */
  function FirstEmpty(sizes: seq<nat>, from: nat): (r: Option<nat>)
    requires from <= |sizes|
    ensures r.Some? ==> from <= r.value < |sizes| && sizes[r.value] == 0
                        && forall j :: from <= j < r.value ==> sizes[j] > 0
    ensures r.None? ==> forall j :: from <= j < |sizes| ==> sizes[j] > 0
    decreases |sizes| - from
  {
    if from == |sizes| then None
    else if sizes[from] == 0 then Some(from)
    else FirstEmpty(sizes, from + 1)
  }

  /**
   * get_next_step, given the number of locations, professionals and
   * services the company has (through the default manager, so active ones).
   */
  function GetNextStep(locations: nat, professionals: nat, services: nat): (r: NextStep)
    ensures r == NoStep <==> locations > 0 && professionals > 0 && services > 0
    ensures locations == 0 ==> r == Next("Crear sede", "appointments:location-create")
    ensures locations > 0 && professionals == 0 ==> r == Next("Crear profesional", "appointments:professional-create")
    ensures locations > 0 && professionals > 0 && services == 0 ==>
              r == Next("Crear servicio", "appointments:service-create")
  {
    var sizes := [locations, professionals, services];
    var first := FirstEmpty(sizes, 0);
    assert sizes[0] == locations && sizes[1] == professionals && sizes[2] == services;
    assert "appointments:" + "location" + "-create" == "appointments:location-create";
    assert "appointments:" + "professional" + "-create" == "appointments:professional-create";
    assert "appointments:" + "service" + "-create" == "appointments:service-create";
    match first
    case None => NoStep
    case Some(k) => Next(PossibleSteps[k].name, "appointments:" + PossibleSteps[k].model + "-create")
  }

  // ---------------------------------------------------------------------
  // CompanyProfile
  // ---------------------------------------------------------------------

  datatype CompanyProfile = CompanyProfile(
    name: Value, description: Value, address: Value, phone: Value,
    profilePicture: Value, bannerPicture: Value, slug: Value, reviewsLink: Value,
    socialFacebookUrl: Value, socialInstagramUrl: Value, socialWebUrl: Value,
    shouldInputEmail: bool, shouldInputCitizenId: bool, shouldInputPhone: bool,
    googleCredentials: Option<map<string, string>>, subscriptionId: Value)

  /** One entry of the profile's field dictionary: its key and its value. */
  datatype Entry = Entry(key: string, value: Value)

  const FieldCount: nat := 11

  /** The labels of the profile entries, in the dictionary's insertion order. */
  const FieldLabels: seq<string> := [
    "Nombre", "Descripción", "Dirección", "Teléfono", "Foto de perfil", "Foto de banner",
    "Slug", "Enlace para reseñas", "Facebook", "Instagram", "Sitio web" ]

  /** The dictionary get_fields starts from, in its insertion order. */
  function Fields(p: CompanyProfile): (r: seq<Entry>)
    ensures |r| == FieldCount == |FieldLabels|
    ensures forall i :: 0 <= i < |r| ==> r[i].key == FieldLabels[i]
  {
    [ Entry("Nombre", p.name), Entry("Descripción", p.description), Entry("Dirección", p.address),
      Entry("Teléfono", p.phone), Entry("Foto de perfil", p.profilePicture),
      Entry("Foto de banner", p.bannerPicture), Entry("Slug", p.slug),
      Entry("Enlace para reseñas", p.reviewsLink), Entry("Facebook", p.socialFacebookUrl),
      Entry("Instagram", p.socialInstagramUrl), Entry("Sitio web", p.socialWebUrl) ]
  }

  predicate Filled(e: Entry)
  {
    Truthy(e.value)
  }

  predicate Unfilled(e: Entry)
  {
    !Truthy(e.value)
  }

  /**
   * The order of `sorted(..., key=filled, reverse=True)`: Python's sort is
   * stable also in reverse, so filled entries come first and each group
   * keeps its original order.
   */
  function SortByFilled(fs: seq<Entry>): seq<Entry>
  {
    Filter(fs, Filled) + Filter(fs, Unfilled)
  }

  /**
   * The sort is a stable partition: the same entries, every filled one
   * before every empty one, each group in its original order.
   */
  lemma SortByFilledIsStablePartition(fs: seq<Entry>)
    ensures multiset(SortByFilled(fs)) == multiset(fs)
    ensures |SortByFilled(fs)| == |fs|
    ensures forall i, j :: 0 <= i < j < |fs| && Filled(SortByFilled(fs)[j]) ==> Filled(SortByFilled(fs)[i])
    ensures Filter(SortByFilled(fs), Filled) == Filter(fs, Filled)
    ensures Filter(SortByFilled(fs), Unfilled) == Filter(fs, Unfilled)
  {
    SortByFilledPermutes(fs);
    SortByFilledOrdersGroups(fs);
    SortByFilledKeepsGroups(fs);
  }

  lemma SortByFilledPermutes(fs: seq<Entry>)
    ensures multiset(SortByFilled(fs)) == multiset(fs)
    ensures |SortByFilled(fs)| == |fs|
  {
    FilterComplement(fs, Filled, Unfilled);
    assert |multiset(SortByFilled(fs))| == |multiset(fs)|;
  }

  lemma SortByFilledOrdersGroups(fs: seq<Entry>)
    ensures forall i, j :: 0 <= i < j < |SortByFilled(fs)| && Filled(SortByFilled(fs)[j]) ==> Filled(SortByFilled(fs)[i])
  {
    var a, b := Filter(fs, Filled), Filter(fs, Unfilled);
    var g := SortByFilled(fs);
    forall j | |a| <= j < |g| ensures Unfilled(g[j]) {
      assert g[j] == b[j - |a|] && b[j - |a|] in b;
    }
    forall i | 0 <= i < |a| ensures Filled(g[i]) {
      assert g[i] == a[i] && a[i] in a;
    }
  }

  lemma SortByFilledKeepsGroups(fs: seq<Entry>)
    ensures Filter(SortByFilled(fs), Filled) == Filter(fs, Filled)
    ensures Filter(SortByFilled(fs), Unfilled) == Filter(fs, Unfilled)
  {
    var a, b := Filter(fs, Filled), Filter(fs, Unfilled);
    FilterConcat(a, b, Filled);
    FilterConcat(a, b, Unfilled);
    FilterAll(a, Filled);
    FilterNone(b, Filled);
    FilterAll(b, Unfilled);
    FilterNone(a, Unfilled);
  }

  /** get_fields: the profile's 11 entries, filled ones first. */
  function GetFields(p: CompanyProfile): (r: seq<Entry>)
    ensures multiset(r) == multiset(Fields(p)) && |r| == FieldCount
    ensures forall i, j :: 0 <= i < j < FieldCount && Filled(r[j]) ==> Filled(r[i])
    ensures Filter(r, Filled) == Filter(Fields(p), Filled)
    ensures Filter(r, Unfilled) == Filter(Fields(p), Unfilled)
  {
    var fs := Fields(p);
    SortByFilledIsStablePartition(fs);
    SortByFilled(fs)
  }

  function Values(entries: seq<Entry>): (r: seq<Value>)
    ensures |r| == |entries| && forall i :: 0 <= i < |r| ==> r[i] == entries[i].value
  {
    if entries == [] then [] else [entries[0].value] + Values(entries[1..])
  }

  /** get_complete_fields: the truthy values, in get_fields order. */
  function GetCompleteFields(p: CompanyProfile): (r: seq<Value>)
    ensures r == Values(Filter(Fields(p), Filled))
    ensures forall v :: v in r ==> Truthy(v)
  {
    FilledValuesAreTruthy(GetFields(p));
    Values(Filter(GetFields(p), Filled))
  }

  lemma FilledValuesAreTruthy(es: seq<Entry>)
    ensures forall v :: v in Values(Filter(es, Filled)) ==> Truthy(v)
  {
    var fe := Filter(es, Filled);
    var r := Values(fe);
    forall v | v in r ensures Truthy(v) {
      var i :| 0 <= i < |r| && r[i] == v;
      assert fe[i] in fe;
    }
  }

  /**
   * get_completeness: int(k / 11 * 100) for k filled fields. For k in
   * 0..11 the float expression and the integer quotient 100·k / 11 agree.
   */
  function GetCompleteness(p: CompanyProfile): (r: int)
    ensures r == 100 * |Filter(Fields(p), Filled)| / FieldCount
    ensures 0 <= r <= 100
    ensures r == 100 <==> forall e :: e in Fields(p) ==> Filled(e)
    ensures r == 0 <==> forall e :: e in Fields(p) ==> !Filled(e)
  {
    var k := |GetCompleteFields(p)|;
    CompletenessFull(Fields(p));
    assert k == 0 <==> Filter(Fields(p), Filled) == [];
    100 * k / FieldCount
  }

  /** Entry by entry, every field filled in `a` is filled in `b`. */
  predicate MoreFilled(a: seq<Entry>, b: seq<Entry>)
  {
    |a| == |b| && forall i :: 0 <= i < |a| && Filled(a[i]) ==> Filled(b[i])
  }

  /** Some field empty in `a` is filled in `b`. */
  predicate GainsField(a: seq<Entry>, b: seq<Entry>)
  {
    exists i :: 0 <= i < |a| && i < |b| && !Filled(a[i]) && Filled(b[i])
  }

  /**
   * Filling fields never lowers the completeness, and filling one more field
   * raises it.
   */
  lemma CompletenessMonotone(p: CompanyProfile, q: CompanyProfile)
    requires MoreFilled(Fields(p), Fields(q))
    ensures GetCompleteness(p) <= GetCompleteness(q)
    ensures GainsField(Fields(p), Fields(q)) ==> GetCompleteness(p) < GetCompleteness(q)
  {
    var a, b := Fields(p), Fields(q);
    FilledCountMonotone(a, b);
    PercentMonotone(|Filter(a, Filled)|, |Filter(b, Filled)|);
  }

  lemma PercentMonotone(m: int, n: int)
    requires 0 <= m <= n
    ensures 100 * m / FieldCount <= 100 * n / FieldCount
    ensures m < n ==> 100 * m / FieldCount < 100 * n / FieldCount
  {
    if m < n {
      assert 100 * n >= 100 * m + 100;
    }
  }

  /** Entry by entry, more filled entries give a longer filtered list. */
  lemma {:induction false} FilledCountMonotone(a: seq<Entry>, b: seq<Entry>)
    requires MoreFilled(a, b)
    ensures |Filter(a, Filled)| <= |Filter(b, Filled)|
    ensures GainsField(a, b) ==> |Filter(a, Filled)| < |Filter(b, Filled)|
    decreases |a|
  {
    if a != [] {
      FilledCountMonotone(a[1..], b[1..]);
      if GainsField(a, b) {
        var i :| 0 <= i < |a| && !Filled(a[i]) && Filled(b[i]);
        if i > 0 {
          assert !Filled(a[1..][i - 1]) && Filled(b[1..][i - 1]);
        }
      }
    }
  }

  /** All entries are filled exactly when every one of them survives the filter. */
  lemma CompletenessFull(fs: seq<Entry>)
    ensures |Filter(fs, Filled)| <= |fs|
    ensures |Filter(fs, Filled)| == |fs| <==> forall e :: e in fs ==> Filled(e)
  {
    var a, b := Filter(fs, Filled), Filter(fs, Unfilled);
    FilterComplement(fs, Filled, Unfilled);
    assert |multiset(a)| + |multiset(b)| == |multiset(fs)|;
    if forall e :: e in fs ==> Filled(e) {
      FilterAll(fs, Filled);
    }
    if |a| == |fs| {
      assert |b| == 0;
      assert forall e :: e in fs ==> Filled(e);
    }
  }

  datatype InputAvoidanceFlags = InputAvoidanceFlags(email: bool, citizenId: bool, phone: bool)

  /** get_input_avoidance_flags: each flag says the matching input may be skipped. */
  function GetInputAvoidanceFlags(p: CompanyProfile): (r: InputAvoidanceFlags)
    ensures r.email != p.shouldInputEmail
    ensures r.citizenId != p.shouldInputCitizenId
    ensures r.phone != p.shouldInputPhone
  {
    InputAvoidanceFlags(!p.shouldInputEmail, !p.shouldInputCitizenId, !p.shouldInputPhone)
  }

  /** Customer.full_name: the first name, one space, the last name. */
  function FullName(firstName: string, lastName: string): (r: string)
    ensures |r| == |firstName| + 1 + |lastName|
    ensures r[..|firstName|] == firstName && r[|firstName|] == ' ' && r[|firstName| + 1..] == lastName
  {
    firstName + " " + lastName
  }
}
