/** The administrators' page pages/admin/users.tsx: the create-user form's checks and state,
    the reload of the user list, and the labels of the user table. `handleCreateUser` is
    split at its `await`: `Submit` runs up to the request, `Complete` handles the reply. */
module AdminUsersForm {
  import opened Common
  import opened Users

  /** The form's fields. */
  datatype FormData = FormData(email: string, name: string, password: string, confirmPassword: string, role: string)

  /** The form as first shown and as reset after a successful creation. */
  const EmptyForm := FormData("", "", "", "", "user")

  /** The minimum password length, in JavaScript string units. */
  const MinPasswordLength: nat := 8

  const Mismatch := "Les mots de passe ne correspondent pas"
  const TooShort := "Le mot de passe doit contenir au moins 8 caractères"
  const CreateFailed := "Erreur lors de la création"
  const Created := "Utilisateur créé avec succès"
  const LoadFailed := "Erreur lors du chargement des utilisateurs"

  /** The body the form posts to the create-user route. */
  datatype NewUser = NewUser(email: string, name: string, password: string, role: string)

  /** The client-side checks, in order: the confirmation must equal the password, then the
      password must be at least 8 units long. `None` means the request may be sent. */
  function Validate(form: FormData): (error: Option<string>)
    ensures error == None <==> form.password == form.confirmPassword && Utf16Length(form.password) >= MinPasswordLength
    ensures error.Some? ==> error.value in {Mismatch, TooShort}
  {
    if form.password != form.confirmPassword then Some(Mismatch)
    else if Utf16Length(form.password) < MinPasswordLength then Some(TooShort)
    else None
  }

  /** The mismatch is reported before the length: a short password whose confirmation
      differs gets the mismatch message, and the length message means the two agreed. */
  lemma ValidationOrder(form: FormData)
    ensures form.password != form.confirmPassword ==> Validate(form) == Some(Mismatch)
    ensures Validate(form) == Some(TooShort) <==>
      form.password == form.confirmPassword && Utf16Length(form.password) < MinPasswordLength
  {
  }

  /** The length counts UTF-16 units: any 8 characters pass it; inside the Basic
      Multilingual Plane it takes 8 characters, and outside it 4 are enough. */
  lemma LengthInUnits(form: FormData)
    requires form.password == form.confirmPassword
    ensures |form.password| >= MinPasswordLength ==> Validate(form) == None
    ensures (forall i :: 0 <= i < |form.password| ==> form.password[i] as int <= 0xFFFF) ==>
      (Validate(form) == None <==> |form.password| >= MinPasswordLength)
    ensures (forall i :: 0 <= i < |form.password| ==> form.password[i] as int > 0xFFFF) ==>
      (Validate(form) == None <==> |form.password| >= MinPasswordLength / 2)
  {
    if forall i :: 0 <= i < |form.password| ==> form.password[i] as int <= 0xFFFF {
      Utf16LengthBmp(form.password);
    }
    if forall i :: 0 <= i < |form.password| ==> form.password[i] as int > 0xFFFF {
      Utf16LengthAstral(form.password);
    }
  }

  /** The create-user route's reply as the form sees it: a 2xx answer, an error answer
      with the JSON `error` field it carried (if any), or a thrown exception's message. */
  datatype CreateReply = Accepted | Rejected(error: Option<string>) | Thrown(message: string)

  /** The list-users route's reply: the `users` field of a 2xx answer (absent reads as
      `[]`), a non-2xx answer, or a thrown exception's message. */
  datatype ListReply = Listed(users: Option<seq<UserSummary>>) | NotOk | ListThrown(message: string)

  /** The message shown for a failed creation. */
  function CreateError(reply: CreateReply): (message: string)
    requires !reply.Accepted?
    ensures reply.Thrown? ==> message == reply.message
    ensures reply.Rejected? && Truthy(reply.error) ==> message == reply.error.value
    ensures reply.Rejected? && !Truthy(reply.error) ==> message == CreateFailed
  {
    match reply
    case Rejected(e) => if Truthy(e) then e.value else CreateFailed
    case Thrown(m) => m
  }

  /** The label of a role in the user table. */
  function RoleLabel(role: string): (shown: string)
    ensures shown == "Admin" <==> role == "admin"
    ensures shown in {"Admin", "User"}
  {
    if role == "admin" then "Admin" else "User"
  }

  /** The label of an account status in the user table. */
  function StatusLabel(status: string): (shown: string)
    ensures shown == "Actif" <==> status == "active"
    ensures shown in {"Actif", "Inactif"}
  {
    if status == "active" then "Actif" else "Inactif"
  }

  /** The page's state. */
  class UsersPage {
    var users: seq<UserSummary>
    var loadingUsers: bool
    var error: string
    var formData: FormData
    var formError: string
    var formLoading: bool
    var formSuccess: string

    constructor()
      ensures users == [] && loadingUsers && error == ""
      ensures formData == EmptyForm && formError == "" && !formLoading && formSuccess == ""
    {
      users, loadingUsers, error := [], true, "";
      formData, formError, formLoading, formSuccess := EmptyForm, "", false, "";
    }

    /** Typing in the form. */
    method EditForm(data: FormData)
      modifies this
      ensures formData == data
      ensures users == old(users) && loadingUsers == old(loadingUsers) && error == old(error)
      ensures formError == old(formError) && formLoading == old(formLoading) && formSuccess == old(formSuccess)
    {
      formData := data;
    }

    /** `handleCreateUser` up to its request: clears both messages, runs the checks, and
        either shows the first failing check's message or raises the loading flag and
        returns the body to post. */
    method Submit() returns (request: Option<NewUser>)
      modifies this
      ensures request.None? <==> Validate(formData).Some?
      ensures request.None? ==> formError == Validate(formData).value && formLoading == old(formLoading)
      ensures request.Some? ==>
        request.value == NewUser(formData.email, formData.name, formData.password, formData.role) &&
        formLoading && formError == ""
      ensures formSuccess == "" && formData == old(formData)
      ensures users == old(users) && loadingUsers == old(loadingUsers) && error == old(error)
    {
      formError := "";
      formSuccess := "";
      if formData.password != formData.confirmPassword {
        formError := Mismatch;
        return None;
      }
      if Utf16Length(formData.password) < MinPasswordLength {
        formError := TooShort;
        return None;
      }
      formLoading := true;
      request := Some(NewUser(formData.email, formData.name, formData.password, formData.role));
    }

    /** `loadUsers`: the user list from a successful answer, or the error message. */
    method LoadUsers(reply: ListReply)
      modifies this
      ensures reply.Listed? ==>
        users == (if reply.users.Some? then reply.users.value else []) && error == old(error)
      ensures reply.NotOk? ==> users == old(users) && error == LoadFailed
      ensures reply.ListThrown? ==> users == old(users) && error == reply.message
      ensures !loadingUsers
      ensures formData == old(formData) && formError == old(formError)
      ensures formLoading == old(formLoading) && formSuccess == old(formSuccess)
    {
      loadingUsers := true;
      match reply {
        case Listed(list) =>
          users := if list.Some? then list.value else [];
        case NotOk =>
          error := LoadFailed;
        case ListThrown(message) =>
          error := message;
      }
      loadingUsers := false;
    }

    /** `handleCreateUser` after its request: on success the confirmation is shown, the form
        is reset and the list reloaded; on failure the error is shown and the form keeps
        its contents. Either way the loading flag drops. */
    method Complete(reply: CreateReply, reload: ListReply)
      modifies this
      ensures reply.Accepted? ==>
        formSuccess == Created && formData == EmptyForm && formError == old(formError) && !loadingUsers
      ensures !reply.Accepted? ==>
        formError == CreateError(reply) && formData == old(formData) && formSuccess == old(formSuccess) &&
        users == old(users) && loadingUsers == old(loadingUsers) && error == old(error)
      ensures reply.Accepted? && reload.Listed? ==>
        users == (if reload.users.Some? then reload.users.value else []) && error == old(error)
      ensures reply.Accepted? && reload.NotOk? ==> users == old(users) && error == LoadFailed
      ensures reply.Accepted? && reload.ListThrown? ==> users == old(users) && error == reload.message
      ensures !formLoading
    {
      if reply.Accepted? {
        formSuccess := Created;
        formData := EmptyForm;
        LoadUsers(reload);
      } else {
        formError := CreateError(reply);
      }
      formLoading := false;
    }
  }

  /** The checks read only the password and its confirmation: the email, name and role
      never make a submission fail. */
  lemma ChecksReadOnlyPasswords(form: FormData, email: string, name: string, role: string)
    ensures Validate(form) == Validate(form.(email := email, name := name, role := role))
    ensures Validate(form.(confirmPassword := form.password)) != Some(Mismatch)
  {
  }
}
