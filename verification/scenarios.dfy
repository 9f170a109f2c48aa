/**
 Properties that span several calls, across the session manager, the refresh
 strategy and the file endpoints.
 */
module Scenarios {
  import opened Common
  import opened Crypto
  import opened Strings
  import opened AuthService
  import RefreshStrategy
  import FS = FileService
  import FC = FileController

  /** Signing up and then logging in with the same credentials succeeds, for the new user's id. */
  lemma SignupThenLogin(p: Provider, users: Users, email: string, password: string, newId: UserId, e1: Entropy, e2: Entropy)
    requires Lawful(p)
    requires UniqueEmails(users) && newId !in users
    requires forall id :: id in users ==> users[id].email != email
    ensures Signup(p, users, email, password, newId, e1).result.Ok?
    ensures var after := Signup(p, users, email, password, newId, e1).users;
      var login := Login(p, after, email, password, e2);
      && login.result.Ok?
      && p.decode(login.result.value.accessToken, AccessToken) == Some(Claims(newId, email))
  {
    var after := Signup(p, users, email, password, newId, e1).users;
    assert after[newId].email == email;
    assert p.compare(password, after[newId].password);
    var login := Login(p, after, email, password, e2);
    var id :| id in after && after[id].email == email
      && OnlyHashChanged(after, login.users, id)
      && (SignLaw(p) ==> p.decode(login.result.value.accessToken, AccessToken) == Some(Claims(id, email)));
    assert id == newId;
  }

  /** After a logout no token refreshes; the cleared hash makes the comparison throw. */
  lemma LogoutThenRefreshFails(p: Provider, users: Users, userId: UserId, token: string, e: Entropy)
    requires userId in users
    ensures var out := Logout(users, userId).users;
      Refresh(p, out, userId, token, e) == Step(Err(Internal), out)
  {
  }

  /**
   The refresh token a login returns, sent back as `Bearer <token>`, is read
   out of the header intact and accepted by the refresh that follows.
   */
  lemma LoginThenBearerRefresh(p: Provider, users: Users, email: string, password: string, e1: Entropy, e2: Entropy)
    requires HashLaw(p)
    requires UniqueEmails(users)
    requires Login(p, users, email, password, e1).result.Ok?
    requires Trimmed(Login(p, users, email, password, e1).result.value.refreshToken)
    ensures var login := Login(p, users, email, password, e1);
      var id := FindByEmail(users, email).value;
      var token := RefreshStrategy.ExtractToken("Bearer " + login.result.value.refreshToken);
      Refresh(p, login.users, id, token, e2).result.Ok?
  {
    var login := Login(p, users, email, password, e1);
    var id := FindByEmail(users, email).value;
    var t := login.result.value.refreshToken;
    assert RefreshStrategy.ExtractToken(RefreshStrategy.BearerPrefix + t) == t;
    var id' :| id' in users && users[id'].email == email
      && OnlyHashChanged(users, login.users, id')
      && (HashLaw(p) ==> Holds(p, login.users, id', login.result.value));
    assert id' == id;
  }

  /** As written, `getFile` right after an upload reports 0 views while 1 is stored; a second call reports 1. */
  lemma GetFileReportsStaleViews(s: FS.Store, userId: string, file: FC.UploadedFile, tags: Option<string>, newId: FS.FileId, caller: string)
    requires newId !in s.files
    requires FC.UploadFile(s, userId, Some(file), tags, newId).0.Ok?
    ensures var s1 := FC.UploadFile(s, userId, Some(file), tags, newId).1;
      var g1 := FC.GetFile(s1, caller, newId);
      var g2 := FC.GetFile(g1.1, caller, newId);
      && g1.0.Ok? && g1.0.value.views == 0 && g1.1.files[newId].views == 1
      && g2.0.Ok? && g2.0.value.views == 1 && g2.1.files[newId].views == 2
  {
  }

  /** Returning the row `updateViews` wrote, the first fetch after an upload reports 1 view and the second 2. */
  lemma GetFileCountedReportsViews(s: FS.Store, userId: string, file: FC.UploadedFile, tags: Option<string>, newId: FS.FileId, caller: string)
    requires newId !in s.files
    requires FC.UploadFile(s, userId, Some(file), tags, newId).0.Ok?
    ensures var s1 := FC.UploadFile(s, userId, Some(file), tags, newId).1;
      var g1 := FC.GetFileCounted(s1, caller, newId);
      var g2 := FC.GetFileCounted(g1.1, caller, newId);
      && g1.0.Ok? && g1.0.value.views == 1
      && g2.0.Ok? && g2.0.value.views == 2
  {
  }

  /**
   Two files of one owner, "cat.png" tagged "pet" and "dog.png" tagged
   "wild": searching "cat" matches the first by name, and searching "pet"
   matches it by tag, while "dog.png" matches neither.
   */
  lemma SearchByNameOrExactTag()
    ensures var files := map[
        "1" := FS.FileRecord("cat.png", "/file/u/cat.png", "u", ["pet"], None, 0),
        "2" := FS.FileRecord("dog.png", "/file/u/dog.png", "u", ["wild"], None, 0)];
      && FS.FindAll(files, "u", Some("cat")).Keys == {"1"}
      && FS.FindAll(files, "u", Some("pet")).Keys == {"1"}
  {
    var files := map[
        "1" := FS.FileRecord("cat.png", "/file/u/cat.png", "u", ["pet"], None, 0),
        "2" := FS.FileRecord("dog.png", "/file/u/dog.png", "u", ["wild"], None, 0)];
    SearchVerdicts();
    assert files.Keys == {"1", "2"};
    FindsOnlyFirst(files, "cat");
    FindsOnlyFirst(files, "pet");
  }

  lemma FindsOnlyFirst(files: FS.Files, query: string)
    requires files.Keys == {"1", "2"}
    requires |query| > 0
    requires files["1"].userId == "u" && FS.MatchesQuery(files["1"], query)
    requires !FS.MatchesQuery(files["2"], query)
    ensures FS.FindAll(files, "u", Some(query)).Keys == {"1"}
  {
    var r := FS.FindAll(files, "u", Some(query));
    assert "1" in r;
    assert "2" !in r;
  }

  lemma SearchVerdicts()
    ensures FS.MatchesQuery(FS.FileRecord("cat.png", "/file/u/cat.png", "u", ["pet"], None, 0), "cat")
    ensures FS.MatchesQuery(FS.FileRecord("cat.png", "/file/u/cat.png", "u", ["pet"], None, 0), "pet")
    ensures !FS.MatchesQuery(FS.FileRecord("dog.png", "/file/u/dog.png", "u", ["wild"], None, 0), "cat")
    ensures !FS.MatchesQuery(FS.FileRecord("dog.png", "/file/u/dog.png", "u", ["wild"], None, 0), "pet")
  {
    CatPngContainsCat();
    DogMisses("cat", 0);
    DogMisses("pet", 1);
  }

  lemma DogMisses(pat: string, k: nat)
    requires k < |pat| && pat[k] !in "dog.png" && pat != "wild"
    requires forall i :: 0 <= i < |pat| ==> !('A' <= pat[i] <= 'Z')
    ensures !FS.MatchesQuery(FS.FileRecord("dog.png", "/file/u/dog.png", "u", ["wild"], None, 0), pat)
  {
    DogPngLacks(pat, k);
  }

  lemma CatPngContainsCat()
    ensures ContainsInsensitive("cat.png", "cat")
  {
    LowerWithoutCapitals("cat.png");
    LowerWithoutCapitals("cat");
    assert OccursAt("cat.png", "cat", 0);
  }

  lemma DogPngLacks(pat: string, k: nat)
    requires k < |pat| && pat[k] !in "dog.png"
    requires forall i :: 0 <= i < |pat| ==> !('A' <= pat[i] <= 'Z')
    ensures !ContainsInsensitive("dog.png", pat)
  {
    LowerWithoutCapitals("dog.png");
    LowerWithoutCapitals(pat);
    MissingCharNotContained("dog.png", pat, k);
  }
}
