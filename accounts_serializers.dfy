/**
 * accounts/serializers.py: the customer upsert of CustomerSerializer.create,
 * and the has_google_account_linked and subscription fields of a company
 * profile.
 *
 * A user record is a map from attribute names to values; validated data is
 * a map of the same kind. The users table holds companies and customers;
 * Customer.objects sees the rows whose role is CUSTOMER.
 */
module AccountsSerializers {
  import opened Common
  import opened AccountsModels

  type Attrs = map<string, Value>

  datatype UserRow = UserRow(id: nat, attrs: Attrs)

  /** The value of an attribute; a column left unset reads as None. */
  function Attr(a: Attrs, key: string): Value
  {
    if key in a then a[key] else Null
  }

  /**
   * The stored text of the role AccountsModels.Role.Customer, the BASE_ROLE
   * of the Customer proxy (AccountsModels.BaseRole(CustomerUser)).
   */
  const CustomerRole: Value := RoleText(BaseRole(CustomerUser))

  /** A row that CustomerManager lets through. */
  predicate IsCustomer(row: UserRow)
  {
    Attr(row.attrs, "role") == CustomerRole
  }

  predicate CustomerWith(row: UserRow, key: string, value: Value)
  {
    IsCustomer(row) && Attr(row.attrs, key) == value
  }

  /**
   * `Customer.objects.filter(key=value).first()`: the first customer row, in
   * id order, holding that value (filtering on None matches unset columns).
   */
  function FirstCustomerWith(rows: seq<UserRow>, key: string, value: Value): (r: Option<nat>)
    ensures r.Some? ==> r.value < |rows| && CustomerWith(rows[r.value], key, value)
                        && forall j :: 0 <= j < r.value ==> !CustomerWith(rows[j], key, value)
    ensures r.None? ==> forall j :: 0 <= j < |rows| ==> !CustomerWith(rows[j], key, value)
  {
    if rows == [] then None
    else if CustomerWith(rows[0], key, value) then Some(0)
    else match FirstCustomerWith(rows[1..], key, value)
      case None => None
      case Some(k) => Some(k + 1)
  }

  /**
   * The lookup of CustomerSerializer.create: by citizen_id first, and by
   * e-mail only when no customer has that citizen_id. A key the lookup reads
   * and the data lacks raises KeyError.
   */
  function FindMatch(rows: seq<UserRow>, data: Attrs): (r: Result<Option<nat>, string>)
    ensures "citizen_id" !in data ==> r == Err("KeyError")
    ensures "citizen_id" in data && FirstCustomerWith(rows, "citizen_id", data["citizen_id"]).Some? ==>
              r == Ok(FirstCustomerWith(rows, "citizen_id", data["citizen_id"]))
    ensures "citizen_id" in data && FirstCustomerWith(rows, "citizen_id", data["citizen_id"]).None? ==>
              r == (if "email" in data then Ok(FirstCustomerWith(rows, "email", data["email"])) else Err("KeyError"))
    ensures r.Ok? && r.value.Some? ==> r.value.value < |rows| && IsCustomer(rows[r.value.value])
  {
    if "citizen_id" !in data then Err("KeyError")
    else
      var byCitizenId := FirstCustomerWith(rows, "citizen_id", data["citizen_id"]);
      if byCitizenId.Some? then Ok(byCitizenId)
      else if "email" !in data then Err("KeyError")
      else Ok(FirstCustomerWith(rows, "email", data["email"]))
  }

  /** A matched customer found by e-mail has no customer sharing the citizen_id of the data. */
  lemma EmailMatchOnlyWithoutCitizenMatch(rows: seq<UserRow>, data: Attrs, k: nat)
    requires FindMatch(rows, data) == Ok(Some(k)) && "citizen_id" in data
    requires !CustomerWith(rows[k], "citizen_id", data["citizen_id"])
    ensures forall j :: 0 <= j < |rows| ==> !CustomerWith(rows[j], "citizen_id", data["citizen_id"])
    ensures "email" in data && CustomerWith(rows[k], "email", data["email"])
  {
  }

  /**
   * User.save on a Customer: a falsy role becomes CUSTOMER, a set one is
   * kept. This is AccountsModels.DefaultRole(role, CustomerUser) on the
   * attribute map of a row (SaveCustomerIsDefaultRole).
   */
  function SaveCustomer(attrs: Attrs): (r: Attrs)
    ensures r.Keys == attrs.Keys + {"role"} || r == attrs
    ensures Truthy(Attr(attrs, "role")) ==> r == attrs
    ensures !Truthy(Attr(attrs, "role")) ==> r == attrs["role" := CustomerRole]
    ensures Truthy(Attr(r, "role"))
    ensures forall key :: key in attrs && key != "role" ==> key in r && r[key] == attrs[key]
  {
    if Truthy(Attr(attrs, "role")) then attrs else attrs["role" := CustomerRole]
  }

  /**
   * On a role column holding a role choice or nothing, saving a customer
   * stores exactly the role DefaultRole gives for the Customer proxy.
   */
  lemma SaveCustomerIsDefaultRole(attrs: Attrs)
    requires !Truthy(Attr(attrs, "role")) || RoleOf(Attr(attrs, "role")).Some?
    ensures RoleOf(Attr(SaveCustomer(attrs), "role")) == DefaultRole(RoleOf(Attr(attrs, "role")), CustomerUser)
  {
    if !Truthy(Attr(attrs, "role")) {
      assert RoleOf(Attr(attrs, "role")) == None;
      RoleTextRoundTrip(BaseRole(CustomerUser));
    }
  }

  /**
   * `for key, value in validated_data.items(): setattr(customer, key, value)`:
   * every validated field overwrites the record's, the others stay.
   */
  method CopyFields(record: Attrs, data: Attrs) returns (attrs: Attrs)
    ensures attrs == record + data
  {
    attrs := record;
    var pending := data.Keys;
    while pending != {}
      invariant pending <= data.Keys
      invariant PartlyCopied(attrs, record, data, pending)
      decreases |pending|
    {
      var key :| key in pending;
      CopyStep(attrs, record, data, pending, key);
      attrs := attrs[key := data[key]];
      pending := pending - {key};
    }
    OverlayFromEntries(attrs, record, data);
  }

  /** The record after the fields of data outside `pending` have been copied. */
  predicate PartlyCopied(attrs: Attrs, record: Attrs, data: Attrs, pending: set<string>)
  {
    && attrs.Keys == record.Keys + (data.Keys - pending)
    && (forall key :: key in data && key !in pending ==> attrs[key] == data[key])
    && (forall key :: key in record && (key !in data || key in pending) ==> attrs[key] == record[key])
  }

  lemma CopyStep(attrs: Attrs, record: Attrs, data: Attrs, pending: set<string>, key: string)
    requires pending <= data.Keys && key in pending
    requires PartlyCopied(attrs, record, data, pending)
    ensures PartlyCopied(attrs[key := data[key]], record, data, pending - {key})
  {
  }

  lemma OverlayFromEntries(attrs: Attrs, record: Attrs, data: Attrs)
    requires PartlyCopied(attrs, record, data, {})
    ensures attrs == record + data
  {
  }

  class UserTable {
    var rows: seq<UserRow>
    var nextId: nat

    /** Ids grow along the table, so position order is id order. */
    ghost predicate Valid()
      reads this
    {
      && (forall k :: 0 <= k < |rows| ==> rows[k].id < nextId)
      && (forall i, j :: 0 <= i < j < |rows| ==> rows[i].id < rows[j].id)
    }

    constructor ()
      ensures Valid() && rows == []
    {
      rows := [];
      nextId := 1;
    }

    /**
     * CustomerSerializer.create: copy every validated field onto the matched
     * customer and save it, or create a new customer from the data.
     */
    method CreateCustomer(data: Attrs) returns (r: Result<UserRow, string>)
      requires Valid()
      modifies this
      ensures Valid()
      ensures FindMatch(old(rows), data).Err? ==>
                r == Err("KeyError") && rows == old(rows) && nextId == old(nextId)
      ensures FindMatch(old(rows), data).Ok? && FindMatch(old(rows), data).value.Some? ==>
                var k := FindMatch(old(rows), data).value.value;
                && r == Ok(UserRow(old(rows)[k].id, SaveCustomer(old(rows)[k].attrs + data)))
                && rows == old(rows)[k := r.value]
                && nextId == old(nextId)
      ensures FindMatch(old(rows), data) == Ok(None) ==>
                && r == Ok(UserRow(old(nextId), SaveCustomer(data)))
                && rows == old(rows) + [r.value]
                && nextId == old(nextId) + 1
    {
      var found := FindMatch(rows, data);
      if found.Err? {
        return Err("KeyError");
      }
      if found.value.Some? {
        var k := found.value.value;
        var attrs := CopyFields(rows[k].attrs, data);
        var saved := UserRow(rows[k].id, SaveCustomer(attrs));
        rows := rows[k := saved];
        return Ok(saved);
      }
      var created := UserRow(nextId, SaveCustomer(data));
      rows := rows + [created];
      nextId := nextId + 1;
      return Ok(created);
    }
  }

  /** After the upsert the stored customer carries every validated field except a falsy role. */
  lemma UpsertKeepsData(old_attrs: Attrs, data: Attrs)
    ensures forall key :: key in data && key != "role" ==> SaveCustomer(old_attrs + data)[key] == data[key]
    ensures forall key :: key in old_attrs && key !in data && key != "role" ==>
              SaveCustomer(old_attrs + data)[key] == old_attrs[key]
  {
  }

  /** get_has_google_account_linked: credentials are stored. */
  function HasGoogleAccountLinked(p: CompanyProfile): (r: bool)
    ensures r <==> p.googleCredentials.Some?
  {
    p.googleCredentials != None
  }

  datatype Subscription = Subscription(status: string, reason: string, dateCreated: string, nextPaymentDate: string)

  /**
   * get_subscription: None for an empty subscription id, before any call to
   * the payment gateway; otherwise what the gateway reports for the id.
   */
  function GetSubscription(p: CompanyProfile, gateway: string -> Subscription): (r: Option<Subscription>)
    ensures !Truthy(p.subscriptionId) ==> r == None
    ensures Truthy(p.subscriptionId) && p.subscriptionId.Str? ==> r == Some(gateway(p.subscriptionId.s))
  {
    match p.subscriptionId
    case Str(id) => if id == "" then None else Some(gateway(id))
    case _ => None
  }
}
