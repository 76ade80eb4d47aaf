/**
 * Validation of request bodies against the insert shape of each table
 * (create) and its all-optional partial (update). A body is a JSON value.
 * A shape lists every column of the table: the insert shape requires the
 * columns without a server default, the partial shape requires none, and
 * both check the type of every column that is supplied. A JSON value is
 * never a date, so a supplied `createdAt` always fails its check. Other keys
 * are stripped. Failure reports one issue per offending column, in column
 * order.
 */
module Validation {
  import opened Wrappers
  import opened Schema

  /** A parsed JSON value; numbers are integral here. */
  datatype Json = JNull | JBool(b: bool) | JNum(n: int) | JStr(s: string) | JArr(items: seq<Json>)
                | JObj(fields: map<string, Json>)

  datatype IssueCode = Required | InvalidType
  /** One field-level failure; the path of a body that is not an object is "". */
  datatype Issue = Issue(path: string, code: IssueCode)

  /** The value type a column accepts: text, integer, or a date (which no JSON value is). */
  datatype Kind = Text | Integer | Timestamp

  predicate HasKind(v: Json, k: Kind)
  {
    match k
    case Text => v.JStr?
    case Integer => v.JNum?
    case Timestamp => false
  }

  /** One column of a shape; a required column must be supplied. */
  datatype Column = Column(name: string, kind: Kind, required: bool)

  /** The field is present with the column's type. */
  predicate Supplies(fields: map<string, Json>, name: string, k: Kind)
  {
    name in fields && HasKind(fields[name], k)
  }

  /** The field is absent or has the column's type. */
  predicate Acceptable(fields: map<string, Json>, name: string, k: Kind)
  {
    name in fields ==> HasKind(fields[name], k)
  }

  predicate Conforms(fields: map<string, Json>, c: Column)
  {
    if c.required then Supplies(fields, c.name, c.kind) else Acceptable(fields, c.name, c.kind)
  }

  /** The issue a single column raises, if any. */
  function FieldIssues(fields: map<string, Json>, c: Column): (r: seq<Issue>)
    ensures r == [] <==> Conforms(fields, c)
    ensures r != [] ==> r == [Issue(c.name, if c.name in fields then InvalidType else Required)]
  {
    if c.name !in fields then (if c.required then [Issue(c.name, Required)] else [])
    else if HasKind(fields[c.name], c.kind) then []
    else [Issue(c.name, InvalidType)]
  }

  /** Some issue is about the field `name`. */
  predicate Flags(issues: seq<Issue>, name: string)
  {
    exists i | 0 <= i < |issues| :: issues[i].path == name
  }

  lemma FlagsAppend(a: seq<Issue>, b: seq<Issue>, name: string)
    ensures Flags(a + b, name) <==> Flags(a, name) || Flags(b, name)
  {
    var ab := a + b;
    if Flags(ab, name) {
      var i :| 0 <= i < |ab| && ab[i].path == name;
      if i < |a| { assert ab[i] == a[i]; } else { assert ab[i] == b[i - |a|]; }
    }
    if Flags(a, name) {
      var i :| 0 <= i < |a| && a[i].path == name;
      assert ab[i] == a[i];
    }
    if Flags(b, name) {
      var i :| 0 <= i < |b| && b[i].path == name;
      assert ab[|a| + i] == b[i];
    }
  }

  /** The issues of every column of a shape: none iff every column conforms, and a field is flagged iff its column does not. */
  function ShapeIssues(fields: map<string, Json>, cols: seq<Column>): (r: seq<Issue>)
    ensures r == [] <==> forall i | 0 <= i < |cols| :: Conforms(fields, cols[i])
    ensures forall name :: Flags(r, name) <==> exists i | 0 <= i < |cols| :: cols[i].name == name && !Conforms(fields, cols[i])
  {
    if cols == [] then []
    else
      var first := FieldIssues(fields, cols[0]);
      var rest := ShapeIssues(fields, cols[1..]);
      assert forall name :: Flags(first, name) <==> cols[0].name == name && !Conforms(fields, cols[0]) by {
        forall name ensures Flags(first, name) <==> cols[0].name == name && !Conforms(fields, cols[0]) {
          if first != [] { assert first[0].path == cols[0].name; }
        }
      }
      forall name ensures Flags(first + rest, name) <==> exists i | 0 <= i < |cols| :: cols[i].name == name && !Conforms(fields, cols[i]) {
        FlagsAppend(first, rest, name);
        if exists i | 0 <= i < |cols| :: cols[i].name == name && !Conforms(fields, cols[i]) {
          var i :| 0 <= i < |cols| && cols[i].name == name && !Conforms(fields, cols[i]);
          if i > 0 { assert cols[1..][i - 1] == cols[i]; }
        }
        if Flags(rest, name) {
          var i :| 0 <= i < |cols[1..]| && cols[1..][i].name == name && !Conforms(fields, cols[1..][i]);
          assert cols[i + 1] == cols[1..][i];
        }
      }
      assert first + rest == [] <==> forall i | 0 <= i < |cols| :: Conforms(fields, cols[i]) by {
        if forall i | 0 <= i < |cols| :: Conforms(fields, cols[i]) {
          assert forall i | 0 <= i < |cols[1..]| :: Conforms(fields, cols[1..][i]) by {
            forall i | 0 <= i < |cols[1..]| ensures Conforms(fields, cols[1..][i]) { assert cols[1..][i] == cols[i + 1]; }
          }
        }
        if first + rest == [] {
          forall i | 0 <= i < |cols| ensures Conforms(fields, cols[i]) {
            if i > 0 { assert cols[1..][i - 1] == cols[i]; }
          }
        }
      }
      first + rest
  }

  const NotAnObject := [Issue("", InvalidType)]

  /** The columns of `users` and `posts`, in table order. */
  const UserInsertShape := [Column("id", Integer, false), Column("name", Text, true), Column("createdAt", Timestamp, false)]
  const UserPartialShape := [Column("id", Integer, false), Column("name", Text, false), Column("createdAt", Timestamp, false)]
  const PostInsertShape := [Column("id", Integer, false), Column("title", Text, true), Column("content", Text, true),
                            Column("createdAt", Timestamp, false), Column("userId", Integer, true)]
  const PostPartialShape := [Column("id", Integer, false), Column("title", Text, false), Column("content", Text, false),
                             Column("createdAt", Timestamp, false), Column("userId", Integer, false)]

  /** The insert shape of `users`; every offending column is reported. */
  function ValidateNewUser(v: Json): (r: Result<NewUser, seq<Issue>>)
    ensures r.Success? <==> (v.JObj? && Acceptable(v.fields, "id", Integer) && Supplies(v.fields, "name", Text)
                             && "createdAt" !in v.fields)
    ensures r.Success? ==> JStr(r.value.name) == v.fields["name"]
    ensures r.Failure? ==> r.error != []
    ensures !v.JObj? ==> r == Failure(NotAnObject)
    ensures r.Failure? && v.JObj? ==>
              && (Flags(r.error, "id") <==> !Acceptable(v.fields, "id", Integer))
              && (Flags(r.error, "name") <==> !Supplies(v.fields, "name", Text))
              && (Flags(r.error, "createdAt") <==> "createdAt" in v.fields)
  {
    if !v.JObj? then Failure(NotAnObject)
    else
      var f := v.fields;
      var issues := ShapeIssues(f, UserInsertShape);
      assert Flags(issues, "id") <==> !Conforms(f, UserInsertShape[0]);
      assert Flags(issues, "name") <==> !Conforms(f, UserInsertShape[1]);
      assert Flags(issues, "createdAt") <==> !Conforms(f, UserInsertShape[2]);
      if issues == [] then Success(NewUser(f["name"].s)) else Failure(issues)
  }

  /** The insert shape of `posts`; every offending column is reported. */
  function ValidateNewPost(v: Json): (r: Result<NewPost, seq<Issue>>)
    ensures r.Success? <==> (v.JObj? && Acceptable(v.fields, "id", Integer) && Supplies(v.fields, "title", Text)
                             && Supplies(v.fields, "content", Text) && "createdAt" !in v.fields
                             && Supplies(v.fields, "userId", Integer))
    ensures r.Success? ==> (JStr(r.value.title) == v.fields["title"] && JStr(r.value.content) == v.fields["content"]
                            && JNum(r.value.userId) == v.fields["userId"])
    ensures r.Failure? ==> r.error != []
    ensures !v.JObj? ==> r == Failure(NotAnObject)
    ensures r.Failure? && v.JObj? ==>
              && (Flags(r.error, "id") <==> !Acceptable(v.fields, "id", Integer))
              && (Flags(r.error, "title") <==> !Supplies(v.fields, "title", Text))
              && (Flags(r.error, "content") <==> !Supplies(v.fields, "content", Text))
              && (Flags(r.error, "createdAt") <==> "createdAt" in v.fields)
              && (Flags(r.error, "userId") <==> !Supplies(v.fields, "userId", Integer))
  {
    if !v.JObj? then Failure(NotAnObject)
    else
      var f := v.fields;
      var issues := ShapeIssues(f, PostInsertShape);
      assert Flags(issues, "id") <==> !Conforms(f, PostInsertShape[0]);
      assert Flags(issues, "title") <==> !Conforms(f, PostInsertShape[1]);
      assert Flags(issues, "content") <==> !Conforms(f, PostInsertShape[2]);
      assert Flags(issues, "createdAt") <==> !Conforms(f, PostInsertShape[3]);
      assert Flags(issues, "userId") <==> !Conforms(f, PostInsertShape[4]);
      if issues == [] then Success(NewPost(f["title"].s, f["content"].s, f["userId"].n)) else Failure(issues)
  }

  /** The partial insert shape of `users`: the patch never supplies `id` or `createdAt`. */
  function ValidateUserPatch(v: Json): (r: Result<UserPatch, seq<Issue>>)
    ensures r.Success? <==> (v.JObj? && Acceptable(v.fields, "id", Integer) && Acceptable(v.fields, "name", Text)
                             && "createdAt" !in v.fields)
    ensures r.Success? ==> r.value.id.None? && r.value.createdAt.None?
    ensures r.Success? ==> (r.value.name.Some? <==> "name" in v.fields)
    ensures r.Success? && r.value.name.Some? ==> v.fields["name"] == JStr(r.value.name.value)
    ensures r.Failure? ==> r.error != []
    ensures !v.JObj? ==> r == Failure(NotAnObject)
    ensures r.Failure? && v.JObj? ==>
              && (Flags(r.error, "id") <==> !Acceptable(v.fields, "id", Integer))
              && (Flags(r.error, "name") <==> !Acceptable(v.fields, "name", Text))
              && (Flags(r.error, "createdAt") <==> "createdAt" in v.fields)
  {
    if !v.JObj? then Failure(NotAnObject)
    else
      var f := v.fields;
      var issues := ShapeIssues(f, UserPartialShape);
      assert Flags(issues, "id") <==> !Conforms(f, UserPartialShape[0]);
      assert Flags(issues, "name") <==> !Conforms(f, UserPartialShape[1]);
      assert Flags(issues, "createdAt") <==> !Conforms(f, UserPartialShape[2]);
      if issues != [] then Failure(issues)
      else Success(UserPatch(None, if "name" in f then Some(f["name"].s) else None, None))
  }

  /** The partial insert shape of `posts`: the patch never supplies `id` or `createdAt`. */
  function ValidatePostPatch(v: Json): (r: Result<PostPatch, seq<Issue>>)
    ensures r.Success? <==> (v.JObj? && Acceptable(v.fields, "id", Integer) && Acceptable(v.fields, "title", Text)
                             && Acceptable(v.fields, "content", Text) && "createdAt" !in v.fields
                             && Acceptable(v.fields, "userId", Integer))
    ensures r.Success? ==> r.value.id.None? && r.value.createdAt.None?
    ensures r.Success? ==>
              && (r.value.title.Some? <==> "title" in v.fields)
              && (r.value.title.Some? ==> v.fields["title"] == JStr(r.value.title.value))
              && (r.value.content.Some? <==> "content" in v.fields)
              && (r.value.content.Some? ==> v.fields["content"] == JStr(r.value.content.value))
              && (r.value.userId.Some? <==> "userId" in v.fields)
              && (r.value.userId.Some? ==> v.fields["userId"] == JNum(r.value.userId.value))
    ensures r.Failure? ==> r.error != []
    ensures !v.JObj? ==> r == Failure(NotAnObject)
    ensures r.Failure? && v.JObj? ==>
              && (Flags(r.error, "id") <==> !Acceptable(v.fields, "id", Integer))
              && (Flags(r.error, "title") <==> !Acceptable(v.fields, "title", Text))
              && (Flags(r.error, "content") <==> !Acceptable(v.fields, "content", Text))
              && (Flags(r.error, "createdAt") <==> "createdAt" in v.fields)
              && (Flags(r.error, "userId") <==> !Acceptable(v.fields, "userId", Integer))
  {
    if !v.JObj? then Failure(NotAnObject)
    else
      var f := v.fields;
      var issues := ShapeIssues(f, PostPartialShape);
      assert Flags(issues, "id") <==> !Conforms(f, PostPartialShape[0]);
      assert Flags(issues, "title") <==> !Conforms(f, PostPartialShape[1]);
      assert Flags(issues, "content") <==> !Conforms(f, PostPartialShape[2]);
      assert Flags(issues, "createdAt") <==> !Conforms(f, PostPartialShape[3]);
      assert Flags(issues, "userId") <==> !Conforms(f, PostPartialShape[4]);
      if issues != [] then Failure(issues)
      else Success(PostPatch(None,
                             if "title" in f then Some(f["title"].s) else None,
                             if "content" in f then Some(f["content"].s) else None,
                             None,
                             if "userId" in f then Some(f["userId"].n) else None))
  }

  /** The JSON bodies a client sends (`JSON.stringify` of the insert shape or of a patch). */
  function EncodeNewUser(u: NewUser): Json
  {
    JObj(map["name" := JStr(u.name)])
  }

  function EncodeNewPost(p: NewPost): Json
  {
    JObj(map["title" := JStr(p.title), "content" := JStr(p.content), "userId" := JNum(p.userId)])
  }

  function Put(fields: map<string, Json>, name: string, v: Option<Json>): map<string, Json>
  {
    if v.Some? then fields[name := v.value] else fields
  }

  function EncodeUserPatch(p: UserPatch): Json
  {
    JObj(Put(map[], "name", if p.name.Some? then Some(JStr(p.name.value)) else None))
  }

  function EncodePostPatch(p: PostPatch): Json
  {
    var f := Put(map[], "title", if p.title.Some? then Some(JStr(p.title.value)) else None);
    var f := Put(f, "content", if p.content.Some? then Some(JStr(p.content.value)) else None);
    JObj(Put(f, "userId", if p.userId.Some? then Some(JNum(p.userId.value)) else None))
  }

  /** What a client encodes, validation gives back unchanged. */
  lemma NewUserRoundTrip(u: NewUser)
    ensures ValidateNewUser(EncodeNewUser(u)) == Success(u)
  {
  }

  lemma NewPostRoundTrip(p: NewPost)
    ensures ValidateNewPost(EncodeNewPost(p)) == Success(p)
  {
    var f := EncodeNewPost(p).fields;
    assert Supplies(f, "title", Text) && Supplies(f, "content", Text) && Supplies(f, "userId", Integer);
  }

  lemma UserPatchRoundTrip(p: UserPatch)
    requires p.id.None? && p.createdAt.None?
    ensures ValidateUserPatch(EncodeUserPatch(p)) == Success(p)
  {
  }

  lemma PostPatchRoundTrip(p: PostPatch)
    requires p.id.None? && p.createdAt.None?
    ensures ValidatePostPatch(EncodePostPatch(p)) == Success(p)
  {
    var f := EncodePostPatch(p).fields;
    assert "title" in f <==> p.title.Some?;
    assert "content" in f <==> p.content.Some?;
    assert "userId" in f <==> p.userId.Some?;
  }

  /** A body that passes the insert shape also passes the partial shape, and supplies every field of it. */
  lemma InsertShapeIsPartial(v: Json)
    requires ValidateNewPost(v).Success?
    ensures ValidatePostPatch(v).Success?
    ensures var p := ValidatePostPatch(v).value; var n := ValidateNewPost(v).value;
      p.title == Some(n.title) && p.content == Some(n.content) && p.userId == Some(n.userId)
  {
  }
}
