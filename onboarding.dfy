/**
 * The onboarding page (app/onboarding/page.tsx): the step-1 validation and the three-step flow
 * driven by Next, Back and Save.
 */
module Onboarding {
  import opened Wrappers
  import opened Js

  const NameKey := "name"
  const AgeKey := "age"
  const GenderKey := "gender"

  /** The messages of the step-1 form. */
  const NameTooShort := "Name must be at least 2 characters"
  const AgeRequired := "Age is required"
  const Underage := "You must be 18+ to use Metro Connect"
  const AgeTooHigh := "Please enter a valid age"
  const GenderRequired := "Please select your gender"

  /** The message for the age field, or `None` when the age is acceptable. `ageNumber` is
      `parseInt(age)`, `None` for NaN. */
  function AgeMessage(age: string, ageNumber: Option<int>): (r: Option<string>)
    ensures r == Some(AgeRequired) <==> age == "" || ageNumber.None?
    ensures r == Some(Underage) <==> age != "" && ageNumber.Some? && ageNumber.value < 18
    ensures r == Some(AgeTooHigh) <==> age != "" && ageNumber.Some? && ageNumber.value > 100
    ensures r.None? <==> age != "" && ageNumber.Some? && 18 <= ageNumber.value <= 100
  {
    if age == "" || ageNumber.None? then Some(AgeRequired)
    else if ageNumber.value < 18 then Some(Underage)
    else if ageNumber.value > 100 then Some(AgeTooHigh)
    else None
  }

  /** The message step 1 records under `key`, or `None` when that field is acceptable. */
  function Step1Message(name: string, age: string, ageNumber: Option<int>, gender: string, key: string): Option<string> {
    if key == NameKey then (if Utf16Length(Trim(name)) < 2 then Some(NameTooShort) else None)
    else if key == AgeKey then AgeMessage(age, ageNumber)
    else if key == GenderKey then (if gender == "" then Some(GenderRequired) else None)
    else None
  }

  /** Reference definition of step 1's error record: one entry per unacceptable field. */
  function Step1Errors(name: string, age: string, ageNumber: Option<int>, gender: string): (e: map<string, string>)
    ensures forall k :: (k in e) == Step1Message(name, age, ageNumber, gender, k).Some?
    ensures forall k :: k in e ==> e[k] == Step1Message(name, age, ageNumber, gender, k).value
  {
    map k | k in {NameKey, AgeKey, GenderKey} && Step1Message(name, age, ageNumber, gender, k).Some?
      :: Step1Message(name, age, ageNumber, gender, k).value
  }

  /** A record with the entries `validateStep1` fills in, under their conditions, is `Step1Errors`. */
  lemma Step1Agrees(name: string, age: string, ageNumber: Option<int>, gender: string, e: map<string, string>)
    requires (NameKey in e) == (Utf16Length(Trim(name)) < 2) && (NameKey in e ==> e[NameKey] == NameTooShort)
    requires (AgeKey in e) == AgeMessage(age, ageNumber).Some?
    requires AgeKey in e ==> e[AgeKey] == AgeMessage(age, ageNumber).value
    requires (GenderKey in e) == (gender == "") && (GenderKey in e ==> e[GenderKey] == GenderRequired)
    requires e.Keys <= {NameKey, AgeKey, GenderKey}
    ensures e == Step1Errors(name, age, ageNumber, gender)
  {
    var r := Step1Errors(name, age, ageNumber, gender);
    forall k ensures (k in e) == (k in r) && (k in e ==> e[k] == r[k]) {
      if k != NameKey && k != AgeKey && k != GenderKey {
        assert k !in e;
      }
    }
  }

  /** `validateStep1`: fills the error record field by field and reports whether it stayed empty. */
  method ValidateStep1(name: string, age: string, ageNumber: Option<int>, gender: string)
    returns (newErrors: map<string, string>, ok: bool)
    ensures (NameKey in newErrors) == (Utf16Length(Trim(name)) < 2)
    ensures NameKey in newErrors ==> newErrors[NameKey] == NameTooShort
    ensures (AgeKey in newErrors) == AgeMessage(age, ageNumber).Some?
    ensures AgeKey in newErrors ==> newErrors[AgeKey] == AgeMessage(age, ageNumber).value
    ensures (GenderKey in newErrors) == (gender == "")
    ensures GenderKey in newErrors ==> newErrors[GenderKey] == GenderRequired
    ensures newErrors.Keys <= {NameKey, AgeKey, GenderKey}
    ensures newErrors == Step1Errors(name, age, ageNumber, gender)
    ensures ok <==> newErrors == map[]
    ensures ok <==> Utf16Length(Trim(name)) >= 2 && age != "" && ageNumber.Some? && 18 <= ageNumber.value <= 100 && gender != ""
  {
    newErrors := map[];
    if Trim(name) == "" || Utf16Length(Trim(name)) < 2 {
      newErrors := newErrors[NameKey := NameTooShort];
    }
    if age == "" || ageNumber.None? {
      newErrors := newErrors[AgeKey := AgeRequired];
    } else if ageNumber.value < 18 {
      newErrors := newErrors[AgeKey := Underage];
    } else if ageNumber.value > 100 {
      newErrors := newErrors[AgeKey := AgeTooHigh];
    }
    if gender == "" {
      newErrors := newErrors[GenderKey := GenderRequired];
    }
    ok := |newErrors.Keys| == 0;
    assert ok <==> newErrors.Keys == {};
    Step1Agrees(name, age, ageNumber, gender, newErrors);
  }

  /** The `profiles` update of `handleSave`. */
  datatype ProfileUpdate = ProfileUpdate(
    name: string, age: Option<int>, gender: string, profilePicUrl: JsValue, onboardingCompleted: bool)

  /** The stored picture: the uploaded URL when there is a non-empty one, else the sign-in
      provider's avatar when non-empty, else null. */
  function PictureOf(avatarUrl: Option<string>, metadataAvatar: Option<string>): (r: JsValue)
    ensures (avatarUrl.Some? && avatarUrl.value != "") ==> r == Str(avatarUrl.value)
    ensures (!(avatarUrl.Some? && avatarUrl.value != "") && metadataAvatar.Some? && metadataAvatar.value != "")
              ==> r == Str(metadataAvatar.value)
    ensures r == Null <==> !(avatarUrl.Some? && avatarUrl.value != "") && !(metadataAvatar.Some? && metadataAvatar.value != "")
  {
    if avatarUrl.Some? && avatarUrl.value != "" then Str(avatarUrl.value)
    else if metadataAvatar.Some? && metadataAvatar.value != "" then Str(metadataAvatar.value)
    else Null
  }

  /** The page's state; `saves` records the updates sent to the database. */
  class OnboardingState {
    var step: int
    var saving: bool
    var name: string
    var age: string
    var ageNumber: Option<int>
    var gender: string
    var avatarUrl: Option<string>
    var errors: map<string, string>
    var saves: seq<ProfileUpdate>

    /** `step` is one of the page's three steps. */
    predicate Valid()
      reads this
    {
      1 <= step <= 3
    }

    /** The page starts on step 1 with the name from the sign-in metadata, if any. */
    constructor(fullName: Option<string>)
      ensures Valid() && step == 1 && !saving && errors == map[] && saves == []
      ensures name == (if fullName.Some? then fullName.value else "")
      ensures age == "" && ageNumber.None? && gender == "" && avatarUrl.None?
    {
      step := 1;
      saving := false;
      name := if fullName.Some? then fullName.value else "";
      age := "";
      ageNumber := None;
      gender := "";
      avatarUrl := None;
      errors := map[];
      saves := [];
    }

    /** The inputs of step 1: what the user typed and chose. */
    method Edit(newName: string, newAge: string, newAgeNumber: Option<int>, newGender: string)
      requires Valid()
      modifies this
      ensures Valid()
      ensures name == newName && age == newAge && ageNumber == newAgeNumber && gender == newGender
      ensures step == old(step) && saving == old(saving) && errors == old(errors) && saves == old(saves)
      ensures avatarUrl == old(avatarUrl)
    {
      name, age, ageNumber, gender := newName, newAge, newAgeNumber, newGender;
    }

    /** `handleNext`: validation runs only on step 1, and step 2 is reached only when it passes. */
    method HandleNext()
      requires Valid()
      modifies this
      ensures Valid()
      ensures old(step) == 1 ==> errors == Step1Errors(name, age, ageNumber, gender)
      ensures old(step) == 1 ==> step == (if errors == map[] then 2 else 1)
      ensures old(step) == 1 ==> (errors == map[] <==>
                 Utf16Length(Trim(name)) >= 2 && age != "" && ageNumber.Some? && 18 <= ageNumber.value <= 100 && gender != "")
      ensures old(step) != 1 ==> step == old(step) && errors == old(errors)
      ensures saving == old(saving) && saves == old(saves)
      ensures name == old(name) && age == old(age) && ageNumber == old(ageNumber) && gender == old(gender)
      ensures avatarUrl == old(avatarUrl)
    {
      if step == 1 {
        var newErrors, ok := ValidateStep1(name, age, ageNumber, gender);
        errors := newErrors;
        if ok {
          step := 2;
        }
      }
    }

    /** `handleBack`: from step 2 to step 1, and nothing on any other step. */
    method HandleBack()
      requires Valid()
      modifies this
      ensures Valid()
      ensures step == (if old(step) == 2 then 1 else old(step))
      ensures saving == old(saving) && errors == old(errors) && saves == old(saves)
      ensures name == old(name) && age == old(age) && ageNumber == old(ageNumber) && gender == old(gender)
      ensures avatarUrl == old(avatarUrl)
    {
      if step == 2 {
        step := 1;
      }
    }

    /** `handleSave`: nothing without a user; otherwise the update is sent, and the flow reaches
        step 3 when it succeeds and stays where it was, with `saving` cleared, when it fails. */
    method HandleSave(hasUser: bool, metadataAvatar: Option<string>, fails: bool)
      requires Valid()
      modifies this
      ensures Valid()
      ensures !hasUser ==> step == old(step) && saving == old(saving) && saves == old(saves)
      ensures hasUser ==> saves == old(saves) + [ProfileUpdate(Trim(name), ageNumber, gender,
                                                               PictureOf(avatarUrl, metadataAvatar), true)]
      ensures hasUser ==> step == (if fails then old(step) else 3)
      ensures hasUser ==> !saving
      ensures errors == old(errors)
      ensures name == old(name) && age == old(age) && ageNumber == old(ageNumber) && gender == old(gender)
      ensures avatarUrl == old(avatarUrl)
    {
      if !hasUser {
        return;
      }
      saving := true;
      saves := saves + [ProfileUpdate(Trim(name), ageNumber, gender, PictureOf(avatarUrl, metadataAvatar), true)];
      if fails {
        saving := false;
        return;
      }
      step := 3;
      saving := false;
    }
  }
}
