/**
 * `PATCH /api/profile` (app/api/profile/route.ts): the ordered validation of a profile update
 * and the update record built from the supplied fields.
 */
module ApiProfile {
  import opened Wrappers
  import opened Js
  import opened Http

  /** The request body's fields, `Undefined` when absent. */
  datatype ProfileBody = ProfileBody(
    name: JsValue, age: JsValue, gender: JsValue, bio: JsValue, instagramHandle: JsValue,
    twitterHandle: JsValue, phone: JsValue, phoneVisible: JsValue, profilePicUrl: JsValue)

  /** The `profiles` columns a request may set. */
  datatype Column = Name | Age | Gender | Bio | InstagramHandle | TwitterHandle | Phone | PhoneVisible | ProfilePicUrl

  /** The columns in the order the builder visits them. */
  const Columns: seq<Column> :=
    [Name, Age, Gender, Bio, InstagramHandle, TwitterHandle, Phone, PhoneVisible, ProfilePicUrl]

  /** The column name in the JSON body and the table. */
  function ColumnName(c: Column): string {
    match c
    case Name => "name"
    case Age => "age"
    case Gender => "gender"
    case Bio => "bio"
    case InstagramHandle => "instagram_handle"
    case TwitterHandle => "twitter_handle"
    case Phone => "phone"
    case PhoneVisible => "phone_visible"
    case ProfilePicUrl => "profile_pic_url"
  }

  /** The optional free-text columns, stored as `value?.trim() || null`. */
  predicate IsFreeText(c: Column) {
    c.Bio? || c.InstagramHandle? || c.TwitterHandle? || c.Phone?
  }

  function Field(b: ProfileBody, c: Column): JsValue {
    match c
    case Name => b.name
    case Age => b.age
    case Gender => b.gender
    case Bio => b.bio
    case InstagramHandle => b.instagramHandle
    case TwitterHandle => b.twitterHandle
    case Phone => b.phone
    case PhoneVisible => b.phoneVisible
    case ProfilePicUrl => b.profilePicUrl
  }

  function SuppliedKeys(b: ProfileBody): set<Column> {
    set c: Column | Field(b, c) != Undefined
  }

  // ---------------------------------------------------------------- validation

  /** A supplied name that is not a string or is shorter than 2 once trimmed. */
  predicate NameInvalid(name: JsValue) {
    name != Undefined && (!name.Str? || Utf16Length(Trim(name.s)) < 2)
  }

  /** A supplied age whose `Number(age)` is NaN (`None`) or outside 18..100. */
  predicate AgeInvalid(age: JsValue, ageNumber: Option<real>) {
    age != Undefined && (ageNumber.None? || ageNumber.value < 18.0 || ageNumber.value > 100.0)
  }

  /** `!["Male", "Female", "Other"].includes(gender)` for a supplied gender. */
  predicate GenderInvalid(gender: JsValue) {
    gender != Undefined && gender !in [Str("Male"), Str("Female"), Str("Other")]
  }

  /** The minimum is on UTF-16 units: a single emoji is a name of length 2 and is accepted. */
  lemma EmojiNameAccepted()
    ensures !NameInvalid(Str("\U{1F600}"))
  {
    assert !IsWhitespace('\U{1F600}');
    TrimKeepsUnpadded("\U{1F600}");
    EmojiLength();
  }

  /** The message of the first failing check, in the order name, age, gender. */
  function ValidationError(b: ProfileBody, ageNumber: Option<real>): (r: Option<string>)
    ensures r == Some("Name must be at least 2 characters") <==> NameInvalid(b.name)
    ensures r == Some("Age must be between 18 and 100") <==> !NameInvalid(b.name) && AgeInvalid(b.age, ageNumber)
    ensures (r == Some("Invalid gender value"))
              <==> (!NameInvalid(b.name) && !AgeInvalid(b.age, ageNumber) && GenderInvalid(b.gender))
    ensures r.None? <==> !NameInvalid(b.name) && !AgeInvalid(b.age, ageNumber) && !GenderInvalid(b.gender)
  {
    if NameInvalid(b.name) then Some("Name must be at least 2 characters")
    else if AgeInvalid(b.age, ageNumber) then Some("Age must be between 18 and 100")
    else if GenderInvalid(b.gender) then Some("Invalid gender value")
    else None
  }

  // ---------------------------------------------------------------- update record

  /** A supplied free-text value that is neither a string nor null, so its `.trim()` throws. */
  predicate ThrowsOn(v: JsValue) {
    v != Undefined && OptionalTrimOrNull(v).Threw?
  }

  /** Some supplied free-text field throws on `.trim()`. */
  predicate TrimThrows(b: ProfileBody) {
    ThrowsOn(b.bio) || ThrowsOn(b.instagramHandle) || ThrowsOn(b.twitterHandle) || ThrowsOn(b.phone)
  }

  /** What the record stores for a supplied field. */
  function StoredValue(b: ProfileBody, c: Column, ageNumber: Option<real>): JsValue {
    if c == Name then (if b.name.Str? then Str(Trim(b.name.s)) else b.name)
    else if c == Age then (if ageNumber.Some? then Num(ageNumber.value) else b.age)
    else if IsFreeText(c) then
      match OptionalTrimOrNull(Field(b, c))
      case Value(v) => v
      case Threw => Field(b, c)
    else Field(b, c)
  }

  /** The intended record: exactly the supplied fields, each normalised. */
  function UpdateRecord(b: ProfileBody, ageNumber: Option<real>): map<Column, JsValue> {
    map k | k in SuppliedKeys(b) :: StoredValue(b, k, ageNumber)
  }

  /** The record after the steps for the first `n` columns. */
  function RecordUpTo(b: ProfileBody, ageNumber: Option<real>, n: nat): map<Column, JsValue>
    requires n <= |Columns|
  {
    if n == 0 then map[]
    else
      var c := Columns[n - 1];
      var prev := RecordUpTo(b, ageNumber, n - 1);
      if Field(b, c) != Undefined then prev[c := StoredValue(b, c, ageNumber)] else prev
  }

  /** One step of the builder for the field at position `n`: store it when supplied, or report
      the `TypeError` of a free-text field that is neither a string nor null. */
  method Step(b: ProfileBody, ageNumber: Option<real>, n: nat, updateData: map<Column, JsValue>)
    returns (updated: map<Column, JsValue>, threw: bool)
    requires n < |Columns| && updateData == RecordUpTo(b, ageNumber, n)
    requires Columns[n] == Name ==> !NameInvalid(b.name)
    requires Columns[n] == Age ==> !AgeInvalid(b.age, ageNumber)
    ensures threw <==> IsFreeText(Columns[n]) && ThrowsOn(Field(b, Columns[n]))
    ensures !threw ==> updated == RecordUpTo(b, ageNumber, n + 1)
  {
    var key := Columns[n];
    var value := Field(b, key);
    updated := updateData;
    threw := false;
    if value == Undefined {
      return;
    }
    if key == Name {
      updated := updateData[key := Str(Trim(value.s))];
    } else if key == Age {
      updated := updateData[key := Num(ageNumber.value)];
    } else if IsFreeText(key) {
      var e := OptionalTrimOrNull(value);
      if e.Threw? {
        threw := true;
        return;
      }
      updated := updateData[key := e.v];
    } else {
      updated := updateData[key := value];
    }
  }

  /** The `updateData` builder, run once validation has passed: one field at a time, in the
      order name, age, gender, bio, instagram_handle, twitter_handle, phone, phone_visible,
      profile_pic_url. `threw` reports a `.trim()` on a non-string, which aborts the handler. */
  method BuildUpdateData(b: ProfileBody, ageNumber: Option<real>) returns (updateData: map<Column, JsValue>, threw: bool)
    requires ValidationError(b, ageNumber).None?
    ensures threw <==> TrimThrows(b)
    ensures !threw ==> updateData == UpdateRecord(b, ageNumber)
  {
    updateData := StepsValidated(b, ageNumber);
    updateData, threw := StepsFreeText(b, ageNumber, updateData);
    if threw {
      return;
    }
    updateData := StepsFlags(b, ageNumber, updateData);
    RecordComplete(b, ageNumber);
  }

  /** The steps for name, age and gender, the fields validation has already vetted: none of
      them can throw. */
  method StepsValidated(b: ProfileBody, ageNumber: Option<real>) returns (updateData: map<Column, JsValue>)
    requires ValidationError(b, ageNumber).None?
    ensures updateData == RecordUpTo(b, ageNumber, 3)
  {
    var threw;
    updateData, threw := Step(b, ageNumber, 0, map[]);
    updateData, threw := Step(b, ageNumber, 1, updateData);
    updateData, threw := Step(b, ageNumber, 2, updateData);
  }

  /** The steps for bio, instagram_handle, twitter_handle and phone: the first of them holding
      neither a string nor null aborts the builder. */
  method StepsFreeText(b: ProfileBody, ageNumber: Option<real>, updateData: map<Column, JsValue>)
    returns (updated: map<Column, JsValue>, threw: bool)
    requires updateData == RecordUpTo(b, ageNumber, 3)
    ensures threw <==> TrimThrows(b)
    ensures !threw ==> updated == RecordUpTo(b, ageNumber, 7)
  {
    updated, threw := Step(b, ageNumber, 3, updateData);
    if threw {
      return;
    }
    updated, threw := Step(b, ageNumber, 4, updated);
    if threw {
      return;
    }
    updated, threw := Step(b, ageNumber, 5, updated);
    if threw {
      return;
    }
    updated, threw := Step(b, ageNumber, 6, updated);
  }

  /** The steps for phone_visible and profile_pic_url, which are stored as given. */
  method StepsFlags(b: ProfileBody, ageNumber: Option<real>, updateData: map<Column, JsValue>)
    returns (updated: map<Column, JsValue>)
    requires updateData == RecordUpTo(b, ageNumber, 7)
    ensures updated == RecordUpTo(b, ageNumber, |Columns|)
  {
    var threw;
    updated, threw := Step(b, ageNumber, 7, updateData);
    updated, threw := Step(b, ageNumber, 8, updated);
  }

  /** The record after `n` steps holds exactly the supplied fields among the first `n` columns. */
  lemma {:induction false} RecordUpToFields(b: ProfileBody, ageNumber: Option<real>, n: nat)
    requires n <= |Columns|
    ensures RecordUpTo(b, ageNumber, n)
              == map c | c in Columns[..n] && Field(b, c) != Undefined :: StoredValue(b, c, ageNumber)
  {
    if n > 0 {
      RecordUpToFields(b, ageNumber, n - 1);
      assert Columns[..n] == Columns[..n - 1] + [Columns[n - 1]];
    }
  }

  lemma RecordComplete(b: ProfileBody, ageNumber: Option<real>)
    ensures RecordUpTo(b, ageNumber, |Columns|) == UpdateRecord(b, ageNumber)
  {
    RecordUpToFields(b, ageNumber, |Columns|);
    assert Columns[..|Columns|] == Columns;
  }

  /** The handler's decision: 401 without a user, the first validation failure as a 400, a
      `TypeError` (500) from a non-string free-text field, otherwise the update record. */
  function PatchProfile(caller: Option<string>, b: ProfileBody, ageNumber: Option<real>): (r: Outcome<map<Column, JsValue>>)
    ensures caller.None? ==> r == Err(401, "Unauthorized")
    ensures caller.Some? && ValidationError(b, ageNumber).Some? ==> r == Err(400, ValidationError(b, ageNumber).value)
    ensures caller.Some? && ValidationError(b, ageNumber).None? && TrimThrows(b) ==> r == Crash
    ensures caller.Some? && ValidationError(b, ageNumber).None? && !TrimThrows(b) ==> r == Ok(200, UpdateRecord(b, ageNumber))
  {
    if caller.None? then Err(401, "Unauthorized")
    else match ValidationError(b, ageNumber)
      case Some(e) => Err(400, e)
      case None => if TrimThrows(b) then Crash else Ok(200, UpdateRecord(b, ageNumber))
  }

  /** A free-text value that does not throw is stored as null or as non-empty trimmed text. */
  lemma StoredFreeText(v: JsValue)
    requires v != Undefined && !ThrowsOn(v)
    ensures OptionalTrimOrNull(v).Value?
    ensures var r := OptionalTrimOrNull(v).v;
      r == Null || (r.Str? && r.s != "" && Trim(r.s) == r.s)
  {
    if v.Str? {
      TrimIdempotent(v.s);
    }
  }

  /** A record that is stored holds only supplied fields, with a trimmed name of at least 2
      characters, an age in 18..100, one of the three genders, and each free-text field either
      null or non-empty trimmed text. */
  lemma UpdateRecordValid(b: ProfileBody, ageNumber: Option<real>)
    requires ValidationError(b, ageNumber).None? && !TrimThrows(b)
    ensures var u := UpdateRecord(b, ageNumber);
      && u.Keys == SuppliedKeys(b)
      && (Name in u ==> u[Name].Str? && Utf16Length(u[Name].s) >= 2 && Trim(u[Name].s) == u[Name].s)
      && (Age in u ==> u[Age].Num? && 18.0 <= u[Age].n <= 100.0)
      && (Gender in u ==> u[Gender] in [Str("Male"), Str("Female"), Str("Other")])
      && (forall c :: IsFreeText(c) && c in u ==>
            u[c] == Null || (u[c].Str? && u[c].s != "" && Trim(u[c].s) == u[c].s))
  {
    RecordValidated(b, ageNumber);
    RecordFreeText(b, ageNumber);
  }

  lemma RecordValidated(b: ProfileBody, ageNumber: Option<real>)
    requires ValidationError(b, ageNumber).None?
    ensures var u := UpdateRecord(b, ageNumber);
      && u.Keys == SuppliedKeys(b)
      && (Name in u ==> u[Name].Str? && Utf16Length(u[Name].s) >= 2 && Trim(u[Name].s) == u[Name].s)
      && (Age in u ==> u[Age].Num? && 18.0 <= u[Age].n <= 100.0)
      && (Gender in u ==> u[Gender] in [Str("Male"), Str("Female"), Str("Other")])
  {
    var u := UpdateRecord(b, ageNumber);
    if Name in u {
      assert u[Name] == StoredValue(b, Name, ageNumber);
      StoredNameValid(b, ageNumber);
    }
    if Age in u {
      assert u[Age] == StoredValue(b, Age, ageNumber);
    }
    if Gender in u {
      assert u[Gender] == StoredValue(b, Gender, ageNumber);
    }
  }

  lemma RecordFreeText(b: ProfileBody, ageNumber: Option<real>)
    requires !TrimThrows(b)
    ensures var u := UpdateRecord(b, ageNumber);
      forall c :: IsFreeText(c) && c in u ==>
        u[c] == Null || (u[c].Str? && u[c].s != "" && Trim(u[c].s) == u[c].s)
  {
    var u := UpdateRecord(b, ageNumber);
    forall c | IsFreeText(c) && c in u
      ensures u[c] == Null || (u[c].Str? && u[c].s != "" && Trim(u[c].s) == u[c].s)
    {
      assert u[c] == StoredValue(b, c, ageNumber);
      StoredFreeTextIn(b, c, ageNumber);
    }
  }

  /** The stored name of a valid body is trimmed text of at least 2 characters. */
  lemma StoredNameValid(b: ProfileBody, ageNumber: Option<real>)
    requires ValidationError(b, ageNumber).None? && b.name != Undefined
    ensures var v := StoredValue(b, Name, ageNumber);
      v.Str? && Utf16Length(v.s) >= 2 && Trim(v.s) == v.s
  {
    TrimIdempotent(b.name.s);
  }

  /** The stored value of a free-text column that does not throw. */
  lemma StoredFreeTextIn(b: ProfileBody, c: Column, ageNumber: Option<real>)
    requires IsFreeText(c) && Field(b, c) != Undefined && !TrimThrows(b)
    ensures var v := StoredValue(b, c, ageNumber);
      v == Null || (v.Str? && v.s != "" && Trim(v.s) == v.s)
  {
    assert !ThrowsOn(Field(b, c));
    StoredFreeText(Field(b, c));
  }
}
