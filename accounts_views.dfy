/**
 * accounts/views.py: the unique slug search and error merge of
 * CompanyRegisterView.post, and the guard of ChangePasswordView.put.
 */
module AccountsViews {
  import opened Common
  import opened Decimal
  import opened AccountsModels

  /** The i-th slug tried for a company: "{first_name}-{last_name}-{i}". */
  function Candidate(firstName: string, lastName: string, i: nat): string
  {
    firstName + "-" + lastName + "-" + NatToString(i)
  }

  /** Different counters give different candidates. */
  lemma CandidateInjective(firstName: string, lastName: string, i: nat, j: nat)
    requires Candidate(firstName, lastName, i) == Candidate(firstName, lastName, j)
    ensures i == j
  {
    var n := |firstName| + |lastName| + 2;
    assert Candidate(firstName, lastName, i)[n..] == NatToString(i);
    assert Candidate(firstName, lastName, j)[n..] == NatToString(j);
    NatToStringInjective(i, j);
  }

  /**
   * The slug search: try counters 1, 2, … until the candidate is not an
   * existing slug. It stops because the existing slugs are finitely many and
   * the candidates are pairwise distinct.
   */
  method FindSlug(firstName: string, lastName: string, existing: set<string>) returns (slug: string, i: nat)
    ensures i >= 1 && slug == Candidate(firstName, lastName, i)
    ensures slug !in existing
    ensures forall j :: 1 <= j < i ==> Candidate(firstName, lastName, j) in existing
    ensures i <= |existing| + 1
  {
    var validSlug := false;
    i := 0;
    slug := "";
    ghost var tried: set<string> := {};
    while !validSlug
      invariant forall j :: 1 <= j < i ==> Candidate(firstName, lastName, j) in existing
      invariant validSlug ==> i >= 1 && slug == Candidate(firstName, lastName, i) && slug !in existing
      invariant !validSlug ==> forall j :: 1 <= j <= i ==> Candidate(firstName, lastName, j) in existing
      invariant tried <= existing && |tried| == (if validSlug then i - 1 else i)
      invariant forall s :: s in tried ==> exists j :: 1 <= j <= i && s == Candidate(firstName, lastName, j)
      invariant validSlug ==> forall s :: s in tried ==> s != slug
      decreases if validSlug then 0 else |existing| + 1 - i
    {
      SubsetCardinality(tried, existing);
      i := i + 1;
      slug := Candidate(firstName, lastName, i);
      assert slug !in tried by {
        forall s | s in tried ensures s != slug {
          var j :| 1 <= j <= i - 1 && s == Candidate(firstName, lastName, j);
          if s == slug {
            CandidateInjective(firstName, lastName, i, j);
          }
        }
      }
      if slug !in existing {
        validSlug := true;
      } else {
        tried := tried + {slug};
        assert |tried| <= |existing| by {
          SubsetCardinality(tried, existing);
        }
      }
    }
    SubsetCardinality(tried, existing);
  }

  lemma SubsetCardinality(a: set<string>, b: set<string>)
    requires a <= b
    ensures |a| <= |b|
  {
    assert b == a + (b - a);
  }

  /** What the registration answers: 201 with the profile's slug, 400 with errors, or a crash. */
  datatype RegisterResponse =
    | Created(slug: string)
    | BadRequest(errors: map<string, seq<string>>)
    | KeyErrorCrash

  /**
   * CompanyRegisterView.post, given the errors the two serializers report
   * (valid means no errors) and the slugs already taken. Returns the answer
   * and the slugs taken afterwards.
   */
  method Register(data: map<string, string>, companyErrors: map<string, seq<string>>,
                  profileErrors: map<string, seq<string>>, existing: set<string>)
    returns (response: RegisterResponse, slugsAfter: set<string>)
    ensures (companyErrors != map[] || profileErrors != map[]) ==>
              response == BadRequest(companyErrors + profileErrors) && slugsAfter == existing
    ensures companyErrors == map[] && profileErrors == map[] && ("first_name" !in data || "last_name" !in data) ==>
              response == KeyErrorCrash && slugsAfter == existing
    ensures companyErrors == map[] && profileErrors == map[] && "first_name" in data && "last_name" in data ==>
              && response.Created?
              && response.slug !in existing
              && slugsAfter == existing + {response.slug}
              && exists i :: i >= 1 && response.slug == Candidate(data["first_name"], data["last_name"], i)
                             && forall j :: 1 <= j < i ==> Candidate(data["first_name"], data["last_name"], j) in existing
  {
    var validCompany := companyErrors == map[];
    var validCompanyProfile := profileErrors == map[];
    if validCompany && validCompanyProfile {
      if "first_name" !in data || "last_name" !in data {
        return KeyErrorCrash, existing;
      }
      var firstName := data["first_name"];
      var lastName := data["last_name"];
      var slug, i := FindSlug(firstName, lastName, existing);
      return Created(slug), existing + {slug};
    }
    var errors: map<string, seq<string>> := map[];
    errors := errors + companyErrors;
    errors := errors + profileErrors;
    assert errors == companyErrors + profileErrors;
    return BadRequest(errors), existing;
  }

  /** Both serializers' messages survive the merge, the profile's winning on a shared field. */
  lemma MergedErrors(companyErrors: map<string, seq<string>>, profileErrors: map<string, seq<string>>, f: string)
    ensures f in companyErrors + profileErrors <==> f in companyErrors || f in profileErrors
    ensures f in profileErrors ==> (companyErrors + profileErrors)[f] == profileErrors[f]
    ensures f in companyErrors && f !in profileErrors ==> (companyErrors + profileErrors)[f] == companyErrors[f]
  {
  }

  /** user.check_password: a given password whose hash is the stored one. */
  predicate CheckPassword(stored: StoredPassword, given: Option<string>, hash: string -> string)
  {
    given.Some? && stored.Hashed? && stored.hash == hash(given.value)
  }

  /** user.set_password: store the hash, or the unusable marker for None. */
  function SetPassword(given: Option<string>, hash: string -> string): StoredPassword
  {
    if given.None? then Unusable else Hashed(hash(given.value))
  }

  datatype PasswordResponse = PasswordChanged | WrongPassword(error: string)

  /**
   * ChangePasswordView.put: the new password is stored, and the user saved,
   * only when the old one checks; otherwise the user is untouched.
   */
  method ChangePassword(user: User, oldPassword: Option<string>, newPassword: Option<string>,
                        hash: string -> string)
    returns (response: PasswordResponse)
    modifies user`password, user`role
    ensures CheckPassword(old(user.password), oldPassword, hash) ==>
              && response == PasswordChanged
              && user.password == SetPassword(newPassword, hash)
              && user.role == DefaultRole(old(user.role), user.kind)
    ensures !CheckPassword(old(user.password), oldPassword, hash) ==>
              && response == WrongPassword("Contraseña incorrecta")
              && user.password == old(user.password) && user.role == old(user.role)
  {
    if CheckPassword(user.password, oldPassword, hash) {
      user.password := SetPassword(newPassword, hash);
      user.Save();
      return PasswordChanged;
    }
    return WrongPassword("Contraseña incorrecta");
  }
}
