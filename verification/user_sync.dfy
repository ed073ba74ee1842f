/** The three identity-provider sync handlers: each turns a user-lifecycle
    event payload into a create, an update-by-id or a delete-by-id on the
    local mirror of users, modelled as a map from user id to record. */
module UserSync {
  import opened Wrappers
  import opened Ids

  /** The avatar stored on create when the payload carries no usable image. */
  const DefaultAvatar: string := "https://your-default-avatar.png"

  /** One entry of the payload's email list. */
  datatype EmailAddress = EmailAddress(emailAddress: string)

  /** The fields of a user event the handlers read. Names and the image URL
      may be null in the payload, hence Option. */
  datatype UserPayload = UserPayload(
    id: UserId,
    firstName: Option<string>,
    lastName: Option<string>,
    emailAddresses: seq<EmailAddress>,
    imageUrl: Option<string>)

  /** A mirrored user. On create the image is always a string; an update
      stores the payload's image URL as it comes, null included. */
  datatype User = User(id: UserId, name: string, email: string, image: Option<string>)

  type Users = map<UserId, User>

  /** Why a handler throws: the payload's email list is empty (its first
      entry is read from undefined), or create found the id already taken
      (the store's primary key is unique). */
  datatype SyncError = NoEmailAddress | DuplicateId

  /** The text JavaScript's `+` produces for a possibly-null string. */
  function JsText(v: Option<string>): (text: string)
  {
    match v
    case Some(s) => s
    case None => "null"
  }

  /** JavaScript truthiness of a possibly-null string: null and "" are falsy. */
  predicate Truthy(v: Option<string>)
  {
    v.Some? && v.value != ""
  }

  /** The display name: the first name, one space, the last name, with a
      missing part rendered as "null" rather than dropped. */
  function FullName(first: Option<string>, last: Option<string>): (r: string)
    ensures |r| == |JsText(first)| + 1 + |JsText(last)|
    ensures r[..|JsText(first)|] == JsText(first)
    ensures r[|JsText(first)|] == ' '
    ensures r[|JsText(first)| + 1..] == JsText(last)
  {
    JsText(first) + " " + JsText(last)
  }

  /** The image stored on create: the payload's URL when it is truthy, the
      default avatar otherwise. */
  function CreateImage(imageUrl: Option<string>): (r: string)
    ensures Truthy(imageUrl) ==> Some(r) == imageUrl
    ensures !Truthy(imageUrl) ==> r == DefaultAvatar
  {
    if Truthy(imageUrl) then imageUrl.value else DefaultAvatar
  }

  /** Every record is stored under its own id. */
  ghost predicate KeyedById(users: Users)
  {
    forall k :: k in users ==> users[k].id == k
  }

  /** `after` agrees with `before` on every id other than `id`. */
  ghost predicate OthersUnchanged(before: Users, after: Users, id: UserId)
  {
    && (forall k :: k in before && k != id ==> k in after && after[k] == before[k])
    && (forall k :: k in after && k != id ==> k in before)
  }

  /** The user.created handler. It fails on an empty email list before it
      touches the store, and fails on an id already present; otherwise it
      inserts the record built from the payload. */
  function Create(users: Users, p: UserPayload): (r: Result<Users, SyncError>)
    ensures |p.emailAddresses| == 0 <==> r == Failure(NoEmailAddress)
    ensures |p.emailAddresses| > 0 ==> (p.id in users <==> r == Failure(DuplicateId))
    ensures r.Success? ==>
      && p.id !in users
      && p.id in r.value
      && r.value[p.id] == User(p.id, FullName(p.firstName, p.lastName),
                               p.emailAddresses[0].emailAddress, Some(CreateImage(p.imageUrl)))
      && OthersUnchanged(users, r.value, p.id)
  {
    if |p.emailAddresses| == 0 then Failure(NoEmailAddress)
    else if p.id in users then Failure(DuplicateId)
    else
      var record := User(p.id, FullName(p.firstName, p.lastName),
                         p.emailAddresses[0].emailAddress, Some(CreateImage(p.imageUrl)));
      Success(users[p.id := record])
  }

  /** The user.updated handler. It fails on an empty email list; otherwise it
      overwrites the record of an existing id with the name and email built as
      on create and the image URL exactly as given, and leaves the store
      unchanged when the id is unknown (no upsert). */
  function Update(users: Users, p: UserPayload): (r: Result<Users, SyncError>)
    ensures |p.emailAddresses| == 0 <==> r.Failure?
    ensures r.Failure? ==> r.error == NoEmailAddress
    ensures r.Success? && p.id !in users ==> r.value == users
    ensures r.Success? && p.id in users ==>
      && p.id in r.value
      && r.value[p.id] == User(p.id, FullName(p.firstName, p.lastName),
                               p.emailAddresses[0].emailAddress, p.imageUrl)
      && OthersUnchanged(users, r.value, p.id)
  {
    if |p.emailAddresses| == 0 then Failure(NoEmailAddress)
    else if p.id !in users then Success(users)
    else
      var record := User(p.id, FullName(p.firstName, p.lastName),
                         p.emailAddresses[0].emailAddress, p.imageUrl);
      Success(users[p.id := record])
  }

  /** The user.deleted handler: afterwards `id` is absent whatever the prior
      state, and every other user is untouched. Deleting an unknown id is not
      an error. */
  function Delete(users: Users, id: UserId): (r: Users)
    ensures id !in r
    ensures OthersUnchanged(users, r, id)
  {
    users - {id}
  }

  /** Deleting a freshly created user restores the store it was created in. */
  lemma CreateThenDelete(users: Users, p: UserPayload)
    requires Create(users, p).Success?
    ensures Delete(Create(users, p).value, p.id) == users
  {
    var after := Delete(Create(users, p).value, p.id);
    assert after.Keys == users.Keys;
  }

  /** Deleting twice is the same as deleting once. */
  lemma DeleteIdempotent(users: Users, id: UserId)
    ensures Delete(Delete(users, id), id) == Delete(users, id)
  {
  }

  /** Create and update build the same name and email from a payload; their
      images agree exactly when the payload's image URL is truthy, so an
      update replaying the creating payload is a no-op in that case and
      otherwise replaces the default avatar by the raw value. */
  lemma UpdateReplaysCreate(users: Users, p: UserPayload)
    requires Create(users, p).Success?
    ensures Update(Create(users, p).value, p).Success?
    ensures Truthy(p.imageUrl) <==> Update(Create(users, p).value, p).value == Create(users, p).value
    ensures Update(Create(users, p).value, p).value.Keys == Create(users, p).value.Keys
  {
    var created := Create(users, p).value;
    var updated := Update(created, p).value;
    if Truthy(p.imageUrl) {
      assert updated.Keys == created.Keys;
    } else {
      assert updated[p.id].image != created[p.id].image;
    }
  }

  /** Create always stores a usable (truthy) image, whatever the payload;
      update stores a usable image exactly when the payload carries one, so
      after an update the image may be null or empty. */
  lemma CreatedImageIsUsable(users: Users, p: UserPayload)
    ensures Create(users, p).Success? ==> Truthy(Create(users, p).value[p.id].image)
    ensures Update(users, p).Success? && p.id in users ==>
      (Truthy(Update(users, p).value[p.id].image) <==> Truthy(p.imageUrl))
  {
    assert DefaultAvatar != "";
  }

  /** All three handlers keep every record stored under its own id. */
  lemma SyncKeepsKeyedById(users: Users, p: UserPayload, id: UserId)
    requires KeyedById(users)
    ensures Create(users, p).Success? ==> KeyedById(Create(users, p).value)
    ensures Update(users, p).Success? ==> KeyedById(Update(users, p).value)
    ensures KeyedById(Delete(users, id))
  {
  }
}
