/**
 * The Express backend of `backend/server.js`: the User, Video and Keyword
 * collections and every route over them, each route run as one atomic step.
 * Read-only routes are functions of the collections; routes that write are
 * methods that change them.
 */
module Server {
  import opened Wrappers
  import opened Collection
  import opened Auth
  import Bcrypt
  import Jwt

  const ADMIN := "admin"
  const AUTHOR := "author"
  const VIEWER := "viewer"

  /** The password `initializeAdmin` gives the account it creates. */
  const DEFAULT_ADMIN_PASSWORD := "admin123"

  /** The `enum` of `UserSchema.role`. */
  predicate IsRole(role: string)
  {
    role == ADMIN || role == AUTHOR || role == VIEWER
  }

  // ---------------------------------------------------------------- documents

  datatype User = User(username: string, password: Bcrypt.PasswordHash, role: string, createdAt: int)

  datatype Video = Video(title: string, videoUrl: string, subtitleUrl: Option<string>, author: Option<string>,
                         createdAt: int, createdBy: Option<Id>)

  datatype Example = Example(en: Option<string>, zh: Option<string>)

  /** The optional fields of a keyword, stored as the request gives them. */
  datatype KeywordDetails = KeywordDetails(
    phonetic: Option<string>, partOfSpeech: Option<string>,
    chineseDefinition: Option<string>, englishDefinition: Option<string>,
    examples: seq<Example>, synonyms: Option<string>, antonyms: Option<string>,
    usage: Option<string>, memoryTip: Option<string>)

  datatype Keyword = Keyword(videoId: Id, word: string, details: KeywordDetails, createdAt: int)

  // ------------------------------------------------------------ request bodies

  /** The fields of a video request body; `None` is a field the body leaves
      out. Fields outside the schema are dropped by Mongoose and not modelled;
      neither is a body `_id`: the store always picks the new id. */
  datatype VideoFields = VideoFields(title: Option<string>, videoUrl: Option<string>,
                                     subtitleUrl: Option<string>, author: Option<string>,
                                     createdAt: Option<int>, createdBy: Option<Id>)

  /** One entry of the `keywords` array of a batch request. */
  datatype KeywordFields = KeywordFields(videoId: Option<Id>, word: Option<string>,
                                         details: KeywordDetails, createdAt: Option<int>)

  // ----------------------------------------------------------------- responses

  /** The user object of the login and register responses. */
  datatype PublicUser = PublicUser(id: Id, username: string, role: string)

  /** A user document with `.select('-password')` applied. */
  datatype UserView = UserView(id: Id, username: string, role: string, createdAt: int)

  /** The fixed messages of the routes, by meaning. */
  datatype Message =
    | BadCredentials | UsernameTaken | UserCreated | UserDeleted | PasswordUpdated
    | VideoNotFound | VideoDeleted | KeywordDeleted | ServerError

  datatype Body =
    | Denied(reason: Denial)
    | Note(message: Message)
    | Session(token: string, user: PublicUser)
    | NewUser(message: Message, user: PublicUser)
    | Profile(profile: Option<UserView>)
    | UserList(users: seq<UserView>)
    | OneVideo(video: Doc<Video>)
    | VideoList(videos: seq<Doc<Video>>)
    | KeywordList(keywords: seq<Doc<Keyword>>)

  datatype Response = Response(status: nat, body: Body)

  /** The response of a request the middleware chain turned away. */
  function Refusal(g: Gate): (r: Response)
    requires g.Reject?
    ensures r.status == g.status && r.body.Denied?
  {
    Response(g.status, Denied(g.reason))
  }

  /** `.select('-password')`: every stored field but the password. */
  function View(d: Doc<User>): (v: UserView)
    ensures v.id == d.id && v.username == d.body.username && v.role == d.body.role && v.createdAt == d.body.createdAt
  {
    UserView(d.id, d.body.username, d.body.role, d.body.createdAt)
  }

  /** What a user record shows does not depend on its password. */
  lemma ViewHidesPassword(d: Doc<User>, other: Bcrypt.PasswordHash)
    ensures View(Doc(d.id, d.body.(password := other))) == View(d)
  {
  }

  /** Mongoose's `required` check on a string: `undefined` and `""` fail it. */
  predicate Present(field: Option<string>): (ok: bool)
    ensures ok <==> field != None && field != Some("")
  {
    field.Some? && field.value != ""
  }

  /** `role || 'viewer'`: a missing or empty role becomes the viewer role. */
  function RoleOrViewer(role: Option<string>): (r: string)
    ensures r != ""
    ensures Present(role) ==> r == role.value
    ensures !Present(role) ==> r == VIEWER
  {
    if Present(role) then role.value else VIEWER
  }

  /** `new Video({ ...req.body, createdBy: req.user.id })` and the schema
      check of `save()`: the creator is always the caller, whatever the body says. */
  function NewVideo(fields: VideoFields, creator: Id, now: int): (v: Option<Video>)
    ensures v.Some? <==> Present(fields.title) && Present(fields.videoUrl)
    ensures v.Some? ==> v.value.createdBy == Some(creator)
    ensures v.Some? ==> v.value.title == fields.title.value && v.value.videoUrl == fields.videoUrl.value
    ensures v.Some? ==> v.value.subtitleUrl == fields.subtitleUrl && v.value.author == fields.author
    ensures v.Some? ==> v.value.createdAt == if fields.createdAt.Some? then fields.createdAt.value else now
  {
    if Present(fields.title) && Present(fields.videoUrl) then
      Some(Video(fields.title.value, fields.videoUrl.value, fields.subtitleUrl, fields.author,
                 fields.createdAt.GetOr(now), Some(creator)))
    else None
  }

  /** The update `findByIdAndUpdate(id, req.body)` applies: every field the
      body gives replaces the stored one (no schema check on update). */
  function ApplyUpdate(v: Video, fields: VideoFields): (r: Video)
    ensures r.title == if fields.title.Some? then fields.title.value else v.title
    ensures r.videoUrl == if fields.videoUrl.Some? then fields.videoUrl.value else v.videoUrl
    ensures fields.subtitleUrl.Some? ==> r.subtitleUrl == fields.subtitleUrl
    ensures fields.subtitleUrl.None? ==> r.subtitleUrl == v.subtitleUrl
    ensures fields.author.Some? ==> r.author == fields.author
    ensures fields.author.None? ==> r.author == v.author
    ensures r.createdAt == if fields.createdAt.Some? then fields.createdAt.value else v.createdAt
    ensures fields.createdBy.Some? ==> r.createdBy == fields.createdBy
    ensures fields.createdBy.None? ==> r.createdBy == v.createdBy
  {
    Video(fields.title.GetOr(v.title), fields.videoUrl.GetOr(v.videoUrl),
          if fields.subtitleUrl.Some? then fields.subtitleUrl else v.subtitleUrl,
          if fields.author.Some? then fields.author else v.author,
          fields.createdAt.GetOr(v.createdAt),
          if fields.createdBy.Some? then fields.createdBy else v.createdBy)
  }

  /** An update keeps what the body leaves out and is idempotent. */
  lemma ApplyUpdateProperties(v: Video, fields: VideoFields)
    ensures ApplyUpdate(v, VideoFields(None, None, None, None, None, None)) == v
    ensures ApplyUpdate(ApplyUpdate(v, fields), fields) == ApplyUpdate(v, fields)
    ensures fields.createdBy.None? ==> ApplyUpdate(v, fields).createdBy == v.createdBy
  {
  }

  /** `{ videoId, ...kw }`: the entry's own `videoId`, when it has one, wins. */
  function Spread(videoId: Option<Id>, entry: KeywordFields): (r: KeywordFields)
    ensures r.videoId == if entry.videoId.Some? then entry.videoId else videoId
    ensures r.word == entry.word && r.details == entry.details && r.createdAt == entry.createdAt
  {
    entry.(videoId := if entry.videoId.Some? then entry.videoId else videoId)
  }

  /** `keywords.map(kw => ({ videoId, ...kw }))`. */
  function SpreadAll(videoId: Option<Id>, entries: seq<KeywordFields>): (r: seq<KeywordFields>)
    ensures |r| == |entries|
    ensures forall i :: 0 <= i < |entries| ==> r[i] == Spread(videoId, entries[i])
  {
    if entries == [] then [] else [Spread(videoId, entries[0])] + SpreadAll(videoId, entries[1..])
  }

  /** A keyword document from one spread entry, after the schema check
      (`videoId` and a non-empty `word` are required). */
  function NewKeyword(fields: KeywordFields, now: int): (k: Option<Keyword>)
    ensures k.Some? <==> fields.videoId.Some? && Present(fields.word)
    ensures k.Some? ==> k.value.videoId == fields.videoId.value && k.value.word == fields.word.value
    ensures k.Some? ==> k.value.details == fields.details
    ensures k.Some? ==> k.value.createdAt == if fields.createdAt.Some? then fields.createdAt.value else now
  {
    if fields.videoId.Some? && Present(fields.word) then
      Some(Keyword(fields.videoId.value, fields.word.value, fields.details, fields.createdAt.GetOr(now)))
    else None
  }

  ghost predicate UniqueUsernames(users: seq<Doc<User>>)
  {
    forall i, j :: 0 <= i < |users| && 0 <= j < |users| && users[i].body.username == users[j].body.username
      ==> users[i].id == users[j].id
  }

  function VideoCreatedAt(v: Video): int
  {
    v.createdAt
  }

  /** The filter `{ videoId }`. */
  function OfVideo(videoId: Id): Doc<Keyword> -> bool
  {
    (k: Doc<Keyword>) => k.body.videoId == videoId
  }

  /** The backend: its three collections, the id source standing for ObjectId
      generation, and the JWT configuration read once at start-up. */
  class Backend {
    var users: seq<Doc<User>>
    var videos: seq<Doc<Video>>
    var keywords: seq<Doc<Keyword>>
    var nextId: Id
    const secret: string
    const encode: Jwt.Encoder<Claims>
    const decode: Jwt.Decoder<Claims>

    ghost predicate Valid()
      reads this
    {
      && UniqueIds(users) && UniqueIds(videos) && UniqueIds(keywords)
      && IdsBelow(users, nextId) && IdsBelow(videos, nextId) && IdsBelow(keywords, nextId)
      && UniqueUsernames(users)
      && (forall i :: 0 <= i < |users| ==> IsRole(users[i].body.role))
    }

    /** The first start, on an empty database; `jwtSecret` is
        `process.env.JWT_SECRET`. A later start over an existing database is
        a `Backend` whose collections already hold documents. */
    constructor (jwtSecret: Option<string>, encode: Jwt.Encoder<Claims>, decode: Jwt.Decoder<Claims>)
      ensures Valid()
      ensures users == [] && videos == [] && keywords == []
      ensures secret == SigningSecret(jwtSecret) && this.encode == encode && this.decode == decode
    {
      users, videos, keywords, nextId := [], [], [], 0;
      secret := SigningSecret(jwtSecret);
      this.encode, this.decode := encode, decode;
    }

    /** The middleware chain of a route with the server's secret. */
    function Check(authorization: Option<string>, now: int, roles: Option<seq<string>>): Gate
    {
      Guard(authorization, decode, secret, now, roles)
    }

    // ------------------------------------------------------------ auth routes

    /** `POST /api/auth/login`: an unknown name and a wrong password get the
        same 401; on success the token carries id, username and role, and the
        response shows the same three fields and nothing else. */
    function Login(username: string, password: string, now: int): (r: Response)
      reads this
      requires Valid()
      ensures r.status == 200 || r == Response(401, Note(BadCredentials))
      ensures r.status == 200 <==> exists i :: 0 <= i < |users| && users[i].body.username == username
                                                 && Bcrypt.Compare(password, users[i].body.password)
      ensures r.status == 200 ==>
        exists i :: 0 <= i < |users| && users[i].body.username == username
          && var claims := Claims(users[i].id, username, users[i].body.role);
             r.body == Session(encode(Jwt.Sign(claims, now), secret), PublicUser(users[i].id, username, users[i].body.role))
    {
      var found := FindOne(users, (u: User) => u.username == username);
      if found.None? then Response(401, Note(BadCredentials))
      else if !Bcrypt.Compare(password, found.value.body.password) then
        assert forall i :: 0 <= i < |users| && users[i].body.username == username ==> users[i] == found.value by {
          forall i | 0 <= i < |users| && users[i].body.username == username ensures users[i] == found.value {
            var k :| 0 <= k < |users| && users[k] == found.value && found.value.body.username == username;
            assert users[i].id == users[k].id;
          }
        }
        Response(401, Note(BadCredentials))
      else
        var u := found.value;
        Response(200, Session(encode(Jwt.Sign(Claims(u.id, u.body.username, u.body.role), now), secret),
                              PublicUser(u.id, u.body.username, u.body.role)))
    }

    /** `GET /api/auth/me`: the caller's own record without the password, or
        `null` when the token's user no longer exists. */
    function Me(authorization: Option<string>, now: int): (r: Response)
      reads this
      ensures Check(authorization, now, None).Reject? ==> r == Refusal(Check(authorization, now, None))
      ensures Check(authorization, now, None).Admit? ==>
        var id := Check(authorization, now, None).claims.id;
        && r.status == 200 && r.body.Profile?
        && (r.body.profile.Some? <==> HasId(users, id))
        && (r.body.profile.Some? ==> exists i :: 0 <= i < |users| && users[i].id == id && r.body.profile.value == View(users[i]))
    {
      var g := Check(authorization, now, None);
      if g.Reject? then Refusal(g)
      else
        match FindById(users, g.claims.id)
        case None => Response(200, Profile(None))
        case Some(u) => Response(200, Profile(Some(View(Doc(g.claims.id, u)))))
    }

    // ------------------------------------------------------------ user routes

    /** `GET /api/users` (admin): every user, in stored order, without passwords. */
    function ListUsers(authorization: Option<string>, now: int): (r: Response)
      reads this
      ensures Check(authorization, now, Some([ADMIN])).Reject? ==> r == Refusal(Check(authorization, now, Some([ADMIN])))
      ensures Check(authorization, now, Some([ADMIN])).Admit? ==>
        r.status == 200 && r.body.UserList? && |r.body.users| == |users|
        && forall i :: 0 <= i < |users| ==> r.body.users[i] == View(users[i])
    {
      var g := Check(authorization, now, Some([ADMIN]));
      if g.Reject? then Refusal(g)
      else Response(200, UserList(seq(|users|, i requires 0 <= i < |users| reads this => View(users[i]))))
    }

    /** `POST /api/auth/register` (admin): 400 and no change for a taken
        name; otherwise exactly one user is added, with the hash of the
        password and the role defaulting to viewer. A role outside the enum
        or an empty name fails the schema check of `save()` (500, no change). */
    method Register(authorization: Option<string>, now: int, username: string, password: string,
                    role: Option<string>, salt: nat) returns (res: Response)
      requires Valid()
      modifies this
      ensures Valid()
      ensures videos == old(videos) && keywords == old(keywords)
      ensures Check(authorization, now, Some([ADMIN])).Reject? ==>
        res == Refusal(Check(authorization, now, Some([ADMIN]))) && users == old(users)
      ensures Check(authorization, now, Some([ADMIN])).Admit?
              && (exists i :: 0 <= i < |old(users)| && old(users)[i].body.username == username) ==>
        res == Response(400, Note(UsernameTaken)) && users == old(users)
      ensures res.status == 201 <==>
        && Check(authorization, now, Some([ADMIN])).Admit?
        && (forall i :: 0 <= i < |old(users)| ==> old(users)[i].body.username != username)
        && username != "" && IsRole(RoleOrViewer(role))
      ensures res.status == 201 ==>
        var created := Doc(old(nextId), User(username, Bcrypt.Hash(password, salt), RoleOrViewer(role), now));
        && !HasId(old(users), created.id)
        && users == old(users) + [created]
        && res.body == NewUser(UserCreated, PublicUser(created.id, username, RoleOrViewer(role)))
      ensures Check(authorization, now, Some([ADMIN])).Admit?
              && (forall i :: 0 <= i < |old(users)| ==> old(users)[i].body.username != username)
              && (username == "" || !IsRole(RoleOrViewer(role))) ==>
        res == Response(500, Note(ServerError))
      ensures res.status != 201 ==> users == old(users)
    {
      var g := Check(authorization, now, Some([ADMIN]));
      if g.Reject? {
        return Refusal(g);
      }
      var existing := FindOne(users, (u: User) => u.username == username);
      if existing.Some? {
        return Response(400, Note(UsernameTaken));
      }
      var user := User(username, Bcrypt.Hash(password, salt), RoleOrViewer(role), now);
      if username == "" || !IsRole(user.role) {
        return Response(500, Note(ServerError));
      }
      var id := nextId;
      users := users + [Doc(id, user)];
      nextId := nextId + 1;
      res := Response(201, NewUser(UserCreated, PublicUser(id, username, user.role)));
    }

    /** `DELETE /api/users/:id` (admin): the user with that id is gone, every
        other user stays; success is reported whether or not it existed. */
    method DeleteUser(authorization: Option<string>, now: int, id: Id) returns (res: Response)
      requires Valid()
      modifies this
      ensures Valid()
      ensures videos == old(videos) && keywords == old(keywords)
      ensures Check(authorization, now, Some([ADMIN])).Reject? ==>
        res == Refusal(Check(authorization, now, Some([ADMIN]))) && users == old(users)
      ensures Check(authorization, now, Some([ADMIN])).Admit? ==>
        && res == Response(200, Note(UserDeleted))
        && users == DeleteById(old(users), id)
        && forall d :: d in users <==> d in old(users) && d.id != id
    {
      var g := Check(authorization, now, Some([ADMIN]));
      if g.Reject? {
        return Refusal(g);
      }
      users := DeleteById(users, id);
      res := Response(200, Note(UserDeleted));
    }

    /** `PUT /api/users/:id/password` (admin): the user's stored hash becomes
        the hash of the new password and nothing else changes; success is
        reported even when no user has that id. */
    method SetPassword(authorization: Option<string>, now: int, id: Id, password: string, salt: nat)
      returns (res: Response)
      requires Valid()
      modifies this
      ensures Valid()
      ensures videos == old(videos) && keywords == old(keywords)
      ensures Check(authorization, now, Some([ADMIN])).Reject? ==>
        res == Refusal(Check(authorization, now, Some([ADMIN]))) && users == old(users)
      ensures Check(authorization, now, Some([ADMIN])).Admit? ==>
        && res == Response(200, Note(PasswordUpdated))
        && |users| == |old(users)|
        && forall i :: 0 <= i < |users| ==>
             users[i] == if old(users)[i].id == id
                         then Doc(id, old(users)[i].body.(password := Bcrypt.Hash(password, salt)))
                         else old(users)[i]
    {
      var g := Check(authorization, now, Some([ADMIN]));
      if g.Reject? {
        return Refusal(g);
      }
      var hashed := Bcrypt.Hash(password, salt);
      users := UpdateById(users, id, (u: User) => u.(password := hashed));
      res := Response(200, Note(PasswordUpdated));
    }

    // ----------------------------------------------------------- video routes

    /** `GET /api/videos`: every video, newest `createdAt` first. */
    function ListVideos(authorization: Option<string>, now: int): (r: Response)
      reads this
      ensures Check(authorization, now, None).Reject? ==> r == Refusal(Check(authorization, now, None))
      ensures Check(authorization, now, None).Admit? ==>
        && r.status == 200 && r.body.VideoList?
        && multiset(r.body.videos) == multiset(videos)
        && forall i, j :: 0 <= i < j < |r.body.videos| ==> r.body.videos[i].body.createdAt >= r.body.videos[j].body.createdAt
    {
      var g := Check(authorization, now, None);
      if g.Reject? then Refusal(g)
      else
        var sorted := SortDescending(videos, VideoCreatedAt);
        assert forall i, j :: 0 <= i < j < |sorted| ==> VideoCreatedAt(sorted[i].body) >= VideoCreatedAt(sorted[j].body);
        Response(200, VideoList(sorted))
    }

    /** `GET /api/videos/:id`: the stored video, or 404. */
    function GetVideo(authorization: Option<string>, now: int, id: Id): (r: Response)
      reads this
      ensures Check(authorization, now, None).Reject? ==> r == Refusal(Check(authorization, now, None))
      ensures Check(authorization, now, None).Admit? ==>
        (r == Response(404, Note(VideoNotFound)) <==> !HasId(videos, id))
      ensures Check(authorization, now, None).Admit? && HasId(videos, id) ==> r.status == 200
      ensures r.status == 200 ==> r.body.OneVideo? && r.body.video in videos && r.body.video.id == id
    {
      var g := Check(authorization, now, None);
      if g.Reject? then Refusal(g)
      else
        match FindById(videos, id)
        case None => Response(404, Note(VideoNotFound))
        case Some(v) => Response(200, OneVideo(Doc(id, v)))
    }

    /** `POST /api/videos` (admin, author): one video is added whose creator
        is the caller, whatever `createdBy` the body carries. */
    method CreateVideo(authorization: Option<string>, now: int, fields: VideoFields) returns (res: Response)
      requires Valid()
      modifies this
      ensures Valid()
      ensures users == old(users) && keywords == old(keywords)
      ensures Check(authorization, now, Some([ADMIN, AUTHOR])).Reject? ==>
        res == Refusal(Check(authorization, now, Some([ADMIN, AUTHOR]))) && videos == old(videos)
      ensures res.status == 201 <==>
        Check(authorization, now, Some([ADMIN, AUTHOR])).Admit? && Present(fields.title) && Present(fields.videoUrl)
      ensures res.status == 201 ==>
        var caller := Check(authorization, now, Some([ADMIN, AUTHOR])).claims.id;
        var created := Doc(old(nextId), NewVideo(fields, caller, now).value);
        && created.body.createdBy == Some(caller)
        && !HasId(old(videos), created.id)
        && videos == old(videos) + [created]
        && res.body == OneVideo(created)
      ensures Check(authorization, now, Some([ADMIN, AUTHOR])).Admit?
              && !(Present(fields.title) && Present(fields.videoUrl)) ==>
        res == Response(500, Note(ServerError))
      ensures res.status != 201 ==> videos == old(videos)
    {
      var g := Check(authorization, now, Some([ADMIN, AUTHOR]));
      if g.Reject? {
        return Refusal(g);
      }
      var video := NewVideo(fields, g.claims.id, now);
      if video.None? {
        return Response(500, Note(ServerError));
      }
      var created := Doc(nextId, video.value);
      videos := videos + [created];
      nextId := nextId + 1;
      res := Response(201, OneVideo(created));
    }

    /** `PUT /api/videos/:id` (admin, author): 404 and no change for an absent
        id; otherwise that video takes every field the body gives (its
        `createdBy` included) and the updated video is returned. */
    method UpdateVideo(authorization: Option<string>, now: int, id: Id, fields: VideoFields) returns (res: Response)
      requires Valid()
      modifies this
      ensures Valid()
      ensures users == old(users) && keywords == old(keywords)
      ensures Check(authorization, now, Some([ADMIN, AUTHOR])).Reject? ==>
        res == Refusal(Check(authorization, now, Some([ADMIN, AUTHOR]))) && videos == old(videos)
      ensures Check(authorization, now, Some([ADMIN, AUTHOR])).Admit? && !HasId(old(videos), id) ==>
        res == Response(404, Note(VideoNotFound)) && videos == old(videos)
      ensures Check(authorization, now, Some([ADMIN, AUTHOR])).Admit? && HasId(old(videos), id) ==>
        && res.status == 200
        && |videos| == |old(videos)|
        && forall i :: 0 <= i < |videos| ==>
             if old(videos)[i].id == id
             then videos[i] == Doc(id, ApplyUpdate(old(videos)[i].body, fields)) && res.body == OneVideo(videos[i])
             else videos[i] == old(videos)[i]
    {
      var g := Check(authorization, now, Some([ADMIN, AUTHOR]));
      if g.Reject? {
        return Refusal(g);
      }
      var existing := FindById(videos, id);
      if existing.None? {
        return Response(404, Note(VideoNotFound));
      }
      ghost var before := videos;
      videos := UpdateById(videos, id, (v: Video) => ApplyUpdate(v, fields));
      res := Response(200, OneVideo(Doc(id, ApplyUpdate(existing.value, fields))));
      forall i | 0 <= i < |videos| && before[i].id == id
        ensures res.body == OneVideo(videos[i])
      {
        var k :| 0 <= k < |before| && before[k] == Doc(id, existing.value);
        assert k == i;
      }
    }

    /** `DELETE /api/videos/:id` (admin): the video and every keyword whose
        `videoId` is that id are gone, everything else stays; success is
        reported even when the video did not exist. */
    method DeleteVideo(authorization: Option<string>, now: int, id: Id) returns (res: Response)
      requires Valid()
      modifies this
      ensures Valid()
      ensures users == old(users)
      ensures Check(authorization, now, Some([ADMIN])).Reject? ==>
        res == Refusal(Check(authorization, now, Some([ADMIN])))
        && videos == old(videos) && keywords == old(keywords)
      ensures Check(authorization, now, Some([ADMIN])).Admit? ==>
        && res == Response(200, Note(VideoDeleted))
        && videos == DeleteById(old(videos), id)
        && keywords == DeleteWhere(old(keywords), OfVideo(id))
        && (forall v :: v in videos <==> v in old(videos) && v.id != id)
        && (forall k :: k in keywords <==> k in old(keywords) && k.body.videoId != id)
    {
      var g := Check(authorization, now, Some([ADMIN]));
      if g.Reject? {
        return Refusal(g);
      }
      videos := DeleteById(videos, id);
      keywords := DeleteWhere(keywords, OfVideo(id));
      res := Response(200, Note(VideoDeleted));
    }

    // --------------------------------------------------------- keyword routes

    /** `GET /api/keywords/:videoId`: that video's keywords, in stored order. */
    function ListKeywords(authorization: Option<string>, now: int, videoId: Id): (r: Response)
      reads this
      ensures Check(authorization, now, None).Reject? ==> r == Refusal(Check(authorization, now, None))
      ensures Check(authorization, now, None).Admit? ==>
        && r.status == 200 && r.body.KeywordList?
        && r.body.keywords == Find(keywords, OfVideo(videoId))
        && forall k :: k in r.body.keywords <==> k in keywords && k.body.videoId == videoId
    {
      var g := Check(authorization, now, None);
      if g.Reject? then Refusal(g)
      else Response(200, KeywordList(Find(keywords, OfVideo(videoId))))
    }

    /** `POST /api/keywords/batch` (admin, author): one keyword per entry, in
        entry order, each with the request's `videoId` unless the entry has its
        own; if any entry fails the schema check nothing is inserted (500). */
    method BatchKeywords(authorization: Option<string>, now: int, videoId: Option<Id>, entries: seq<KeywordFields>)
      returns (res: Response)
      requires Valid()
      modifies this
      ensures Valid()
      ensures users == old(users) && videos == old(videos)
      ensures Check(authorization, now, Some([ADMIN, AUTHOR])).Reject? ==>
        res == Refusal(Check(authorization, now, Some([ADMIN, AUTHOR]))) && keywords == old(keywords)
      ensures res.status == 201 <==>
        && Check(authorization, now, Some([ADMIN, AUTHOR])).Admit?
        && forall i :: 0 <= i < |entries| ==> NewKeyword(Spread(videoId, entries[i]), now).Some?
      ensures res.status == 201 ==>
        && res.body.KeywordList?
        && |res.body.keywords| == |entries|
        && keywords == old(keywords) + res.body.keywords
        && forall i :: 0 <= i < |entries| ==>
             res.body.keywords[i] == Doc(old(nextId) + i, NewKeyword(Spread(videoId, entries[i]), now).value)
      ensures Check(authorization, now, Some([ADMIN, AUTHOR])).Admit?
              && (exists i :: 0 <= i < |entries| && NewKeyword(Spread(videoId, entries[i]), now).None?) ==>
        res == Response(500, Note(ServerError))
      ensures res.status != 201 ==> keywords == old(keywords)
    {
      var g := Check(authorization, now, Some([ADMIN, AUTHOR]));
      if g.Reject? {
        return Refusal(g);
      }
      var docs := SpreadAll(videoId, entries);
      if exists i :: 0 <= i < |docs| && NewKeyword(docs[i], now).None? {
        return Response(500, Note(ServerError));
      }
      // insertMany: every document is checked first, then they go in in order
      var created: seq<Doc<Keyword>> := [];
      var i := 0;
      while i < |docs|
        invariant 0 <= i <= |docs|
        invariant nextId == old(nextId) + i
        invariant |created| == i
        invariant forall k :: 0 <= k < i ==> created[k] == Doc(old(nextId) + k, NewKeyword(docs[k], now).value)
        invariant keywords == old(keywords) + created
        invariant users == old(users) && videos == old(videos)
        invariant Valid()
      {
        var doc := Doc(nextId, NewKeyword(docs[i], now).value);
        keywords := keywords + [doc];
        created := created + [doc];
        nextId := nextId + 1;
        i := i + 1;
      }
      res := Response(201, KeywordList(created));
    }

    /** `DELETE /api/keywords/:id` (admin, author): that keyword is gone,
        every other stays; success is reported even when it did not exist. */
    method DeleteKeyword(authorization: Option<string>, now: int, id: Id) returns (res: Response)
      requires Valid()
      modifies this
      ensures Valid()
      ensures users == old(users) && videos == old(videos)
      ensures Check(authorization, now, Some([ADMIN, AUTHOR])).Reject? ==>
        res == Refusal(Check(authorization, now, Some([ADMIN, AUTHOR]))) && keywords == old(keywords)
      ensures Check(authorization, now, Some([ADMIN, AUTHOR])).Admit? ==>
        && res == Response(200, Note(KeywordDeleted))
        && keywords == DeleteById(old(keywords), id)
        && forall k :: k in keywords <==> k in old(keywords) && k.id != id
    {
      var g := Check(authorization, now, Some([ADMIN, AUTHOR]));
      if g.Reject? {
        return Refusal(g);
      }
      keywords := DeleteById(keywords, id);
      res := Response(200, Note(KeywordDeleted));
    }

    // -------------------------------------------------------------- bootstrap

    /** `initializeAdmin`: when no user is named `admin`, adds one with role
        admin and the hash of the default password; otherwise changes nothing
        (even when the existing `admin` user is not an admin). */
    method InitializeAdmin(now: int, salt: nat)
      requires Valid()
      modifies this
      ensures Valid()
      ensures videos == old(videos) && keywords == old(keywords)
      ensures exists i :: 0 <= i < |users| && users[i].body.username == ADMIN
      ensures (exists i :: 0 <= i < |old(users)| && old(users)[i].body.username == ADMIN) ==>
        users == old(users) && nextId == old(nextId)
      ensures (forall i :: 0 <= i < |old(users)| ==> old(users)[i].body.username != ADMIN) ==>
        users == old(users) + [Doc(old(nextId), User(ADMIN, Bcrypt.Hash(DEFAULT_ADMIN_PASSWORD, salt), ADMIN, now))]
    {
      var adminExists := FindOne(users, (u: User) => u.username == ADMIN);
      if adminExists.None? {
        var admin := User(ADMIN, Bcrypt.Hash(DEFAULT_ADMIN_PASSWORD, salt), ADMIN, now);
        users := users + [Doc(nextId, admin)];
        nextId := nextId + 1;
        assert users[|users| - 1].body.username == ADMIN;
      }
    }
  }

  /** After a successful login, the returned token sent back as
      `Bearer <token>` authenticates as the logged-in user, with the role
      stored at login time, until seven days have passed. */
  lemma {:induction false} LoginTokenAuthenticates(b: Backend, username: string, password: string, issuedAt: int, now: int)
    requires b.Valid() && Jwt.Sound(b.encode, b.decode)
    requires b.Login(username, password, issuedAt).status == 200
    requires now < issuedAt + Jwt.SEVEN_DAYS
    ensures var session := b.Login(username, password, issuedAt).body;
      b.Check(Some("Bearer " + session.token), now, None)
        == Admit(Claims(session.user.id, session.user.username, session.user.role))
  {
    var r := b.Login(username, password, issuedAt);
    var i :| 0 <= i < |b.users| && b.users[i].body.username == username
             && var claims := Claims(b.users[i].id, username, b.users[i].body.role);
                r.body == Session(b.encode(Jwt.Sign(claims, issuedAt), b.secret), PublicUser(b.users[i].id, username, b.users[i].body.role));
    var claims := Claims(b.users[i].id, username, b.users[i].body.role);
    IssuedTokenAdmitted(b.encode, b.decode, b.secret, "Bearer", claims, issuedAt, now);
    var text := b.encode(Jwt.Sign(claims, issuedAt), b.secret);
    assert r.body.token == text;
    assert "Bearer " + text == "Bearer" + " " + text;
    assert claims == Claims(r.body.user.id, r.body.user.username, r.body.user.role);
  }

  /** A video whose keywords were all created by one batch lists exactly
      those keywords, in the order of the batch. */
  lemma {:induction false} BatchIsListedInOrder(before: seq<Doc<Keyword>>, created: seq<Doc<Keyword>>, videoId: Id)
    requires forall i :: 0 <= i < |before| ==> before[i].body.videoId != videoId
    requires forall i :: 0 <= i < |created| ==> created[i].body.videoId == videoId
    ensures Find(before + created, OfVideo(videoId)) == created
  {
    var ofVideo := OfVideo(videoId);
    FindAppend(before, created, ofVideo);
    FindNone(before, ofVideo);
    FindAll(created, ofVideo);
  }

  /** Two start-ups over the same database add at most one user in total,
      and afterwards the default administrator can log in when it was the
      one created. */
  method StartTwice(b: Backend, now1: int, salt1: nat, now2: int, salt2: nat)
    requires b.Valid()
    modifies b
    ensures b.Valid()
    ensures |old(b.users)| <= |b.users| <= |old(b.users)| + 1
    ensures (forall i :: 0 <= i < |old(b.users)| ==> old(b.users)[i].body.username != ADMIN) ==>
      b.Login(ADMIN, DEFAULT_ADMIN_PASSWORD, now2).status == 200
  {
    b.InitializeAdmin(now1, salt1);
    b.InitializeAdmin(now2, salt2);
    if forall i :: 0 <= i < |old(b.users)| ==> old(b.users)[i].body.username != ADMIN {
      var last := |b.users| - 1;
      assert b.users[last].body.username == ADMIN;
      assert Bcrypt.Compare(DEFAULT_ADMIN_PASSWORD, b.users[last].body.password);
    }
  }
}
