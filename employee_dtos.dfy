/** The two request bodies of the employee endpoints and the validation their
    attributes perform before an action runs. The result of validation is the
    field-to-messages dictionary the action hands to ErrorResponse.ValidationError;
    every failing attribute of a field contributes its message, in the order
    the attributes are declared. Lengths are counted in characters. */
module EmployeeDtos {
  import opened Wrappers
  import opened Text
  import Envelopes

  /** A field the body leaves out keeps its initial value: the empty string
      for the three non-nullable strings, 0 for RoleId. */
  datatype CreateEmployeeDto = CreateEmployeeDto(
    email: string,
    name: string,
    address: Option<string>,
    cellNumber: Option<string>,
    roleId: Int32,
    password: string)

  datatype UpdateEmployeeDto = UpdateEmployeeDto(
    name: Option<string>,
    address: Option<string>,
    cellNumber: Option<string>,
    roleId: Option<Int32>,
    isActive: Option<bool>)

  const EmailRequired: string := "Email is required"
  const EmailInvalid: string := "Invalid email format"
  const NameRequired: string := "Name is required"
  const NameTooShort: string := "Name must be at least 2 characters"
  const NameTooLong: string := "Name cannot exceed 100 characters"
  const AddressTooLong: string := "Address cannot exceed 255 characters"
  const RoleIdInvalid: string := "Valid RoleId is required"
  const PasswordRequired: string := "Password is required"
  const PasswordTooShort: string := "Password must be at least 6 characters"
  const PhoneInvalid: string := "Invalid phone number format"

  /** The `[EmailAddress]` and `[Phone]` format checks, which belong to the
      validation framework; the model takes them as given predicates on a
      present value. */
  datatype FormatChecks = FormatChecks(isEmailAddress: string -> bool, isPhone: string -> bool)

  /** `[Required]` on a string: fails on an empty or all-white-space value. */
  predicate RequiredHolds(s: string) {
    !AllWhiteSpace(s)
  }

  /** `[MinLength(n)]` and `[MaxLength(n)]`: an absent value passes. */
  predicate MinLengthHolds(s: Option<string>, n: nat) {
    s.None? || |s.value| >= n
  }

  predicate MaxLengthHolds(s: Option<string>, n: nat) {
    s.None? || |s.value| <= n
  }

  /** `[EmailAddress]` and `[Phone]`: an absent value passes. */
  predicate FormatHolds(s: Option<string>, check: string -> bool) {
    s.None? || check(s.value)
  }

  /** `[Range(1, int.MaxValue)]`: an absent value passes. */
  predicate RangeHolds(v: Option<Int32>) {
    v.None? || 1 <= v.value <= MaxInt32
  }

  /** The message of one attribute when it fails. */
  function Check(holds: bool, message: string): seq<string> {
    if holds then [] else [message]
  }

  const CreateFields: set<string> := {"Email", "Name", "Address", "CellNumber", "RoleId", "Password"}
  const UpdateFields: set<string> := {"Name", "Address", "CellNumber", "RoleId"}

  /** The messages of one field of a CreateEmployeeDto body, one per failing
      attribute in declaration order. */
  function CreateMessages(dto: CreateEmployeeDto, formats: FormatChecks, field: string): seq<string> {
    if field == "Email" then
      Check(RequiredHolds(dto.email), EmailRequired) + Check(FormatHolds(Some(dto.email), formats.isEmailAddress), EmailInvalid)
    else if field == "Name" then
      Check(RequiredHolds(dto.name), NameRequired) + Check(MinLengthHolds(Some(dto.name), 2), NameTooShort)
      + Check(MaxLengthHolds(Some(dto.name), 100), NameTooLong)
    else if field == "Address" then Check(MaxLengthHolds(dto.address, 255), AddressTooLong)
    else if field == "CellNumber" then Check(FormatHolds(dto.cellNumber, formats.isPhone), PhoneInvalid)
    else if field == "RoleId" then Check(RangeHolds(Some(dto.roleId)), RoleIdInvalid)
    else if field == "Password" then
      Check(RequiredHolds(dto.password), PasswordRequired) + Check(MinLengthHolds(Some(dto.password), 6), PasswordTooShort)
    else []
  }

  /** The messages of one field of an UpdateEmployeeDto body. */
  function UpdateMessages(dto: UpdateEmployeeDto, formats: FormatChecks, field: string): seq<string> {
    if field == "Name" then Check(MinLengthHolds(dto.name, 2), NameTooShort) + Check(MaxLengthHolds(dto.name, 100), NameTooLong)
    else if field == "Address" then Check(MaxLengthHolds(dto.address, 255), AddressTooLong)
    else if field == "CellNumber" then Check(FormatHolds(dto.cellNumber, formats.isPhone), PhoneInvalid)
    else if field == "RoleId" then Check(RangeHolds(dto.roleId), RoleIdInvalid)
    else []
  }

  /** The validation of a CreateEmployeeDto body: every field with at least
      one failing attribute, mapped to its messages. */
  function ValidateCreate(dto: CreateEmployeeDto, formats: FormatChecks): (errors: Envelopes.ValidationErrors)
    ensures errors.Keys <= CreateFields
    ensures "Email" in errors <==> AllWhiteSpace(dto.email) || !formats.isEmailAddress(dto.email)
    ensures "Name" in errors <==> AllWhiteSpace(dto.name) || |dto.name| < 2 || |dto.name| > 100
    ensures "Address" in errors <==> dto.address.Some? && |dto.address.value| > 255
    ensures "CellNumber" in errors <==> dto.cellNumber.Some? && !formats.isPhone(dto.cellNumber.value)
    ensures "RoleId" in errors <==> dto.roleId < 1
    ensures "Password" in errors <==> AllWhiteSpace(dto.password) || |dto.password| < 6
    ensures forall f :: f in errors ==> errors[f] != []
  {
    map f | f in CreateFields && CreateMessages(dto, formats, f) != [] :: CreateMessages(dto, formats, f)
  }

  /** The validation of an UpdateEmployeeDto body. */
  function ValidateUpdate(dto: UpdateEmployeeDto, formats: FormatChecks): (errors: Envelopes.ValidationErrors)
    ensures errors.Keys <= UpdateFields
    ensures "Name" in errors <==> dto.name.Some? && (|dto.name.value| < 2 || |dto.name.value| > 100)
    ensures "Address" in errors <==> dto.address.Some? && |dto.address.value| > 255
    ensures "CellNumber" in errors <==> dto.cellNumber.Some? && !formats.isPhone(dto.cellNumber.value)
    ensures "RoleId" in errors <==> dto.roleId.Some? && dto.roleId.value < 1
    ensures forall f :: f in errors ==> errors[f] != []
  {
    map f | f in UpdateFields && UpdateMessages(dto, formats, f) != [] :: UpdateMessages(dto, formats, f)
  }

  /** An update body that sets nothing. */
  const EmptyUpdate: UpdateEmployeeDto := UpdateEmployeeDto(None, None, None, None, None)

  /** No update field is required and IsActive is never checked. */
  lemma UpdateFieldsOptional(isActive: Option<bool>, formats: FormatChecks)
    ensures ValidateUpdate(EmptyUpdate, formats) == map[]
    ensures ValidateUpdate(EmptyUpdate.(isActive := isActive), formats) == map[]
  {
  }

  /** An empty name fails both [Required] and [MinLength(2)] on create; a
      name of two spaces passes the length check but not [Required]. */
  lemma CreateNameMessages(dto: CreateEmployeeDto, formats: FormatChecks)
    requires dto.name == ""
    ensures ValidateCreate(dto, formats)["Name"] == [NameRequired, NameTooShort]
    ensures ValidateCreate(dto.(name := "  "), formats)["Name"] == [NameRequired]
  {
    assert AllWhiteSpace("  ") by {
      assert IsWhiteSpace("  "[0]) && IsWhiteSpace("  "[1]);
    }
  }
}
