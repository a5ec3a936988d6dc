/** The pure parts of main.py's Keycloak login (`login_oidc`): the form
    payload built from the login form's inputs, the resolution of the form's
    `action` attribute, and the token endpoint derived from the auth URL. */
module OidcForm {
  import opened Text

  /** One `<input>` of the login form: its `name`, `type` and `value`
      attributes, each absent when the attribute is missing. */
  datatype FormInput = FormInput(name: Option<string>, inputType: Option<string>, value: Option<string>)

  /** `input_field.get('type', 'text').lower()` */
  function TypeOf(inp: FormInput): string {
    Lower(if inp.inputType.Some? then inp.inputType.value else "text")
  }

  /** `input_field.get('value', '')` */
  function ValueOf(inp: FormInput): string {
    if inp.value.Some? then inp.value.value else ""
  }

  /** The input is copied into the payload under `key` with its own value:
      a non-empty name other than the two credential fields, of type
      hidden or submit. */
  predicate CarriedAs(inp: FormInput, key: string) {
    inp.name == Some(key) && key != "" && key != "username" && key != "password"
    && (TypeOf(inp) == "hidden" || TypeOf(inp) == "submit")
  }

  /** The loop body: what one input does to the dictionary. */
  function AddInput(data: map<string, string>, inp: FormInput, username: string, password: string): map<string, string> {
    if !Truthy(inp.name) then data
    else
      var name := inp.name.value;
      if name == "username" then data[name := username]
      else if name == "password" then data[name := password]
      else if TypeOf(inp) == "hidden" || TypeOf(inp) == "submit" then data[name := ValueOf(inp)]
      else data
  }

  /** The dictionary after the loop over `form.find_all('input')`. */
  function Fields(inputs: seq<FormInput>, username: string, password: string): map<string, string>
    decreases |inputs|
  {
    if inputs == [] then map[]
    else AddInput(Fields(inputs[..|inputs| - 1], username, password), inputs[|inputs| - 1], username, password)
  }

  /** Reference definition of `login_data`: the loop, then the two
      credentials added when missing. */
  function LoginPayload(inputs: seq<FormInput>, username: string, password: string): map<string, string> {
    var data := Fields(inputs, username, password);
    var withUser := if "username" !in data then data["username" := username] else data;
    if "password" !in withUser then withUser["password" := password] else withUser
  }

  lemma {:induction false} FieldsCredentials(inputs: seq<FormInput>, username: string, password: string)
    ensures "username" in Fields(inputs, username, password) ==> Fields(inputs, username, password)["username"] == username
    ensures "password" in Fields(inputs, username, password) ==> Fields(inputs, username, password)["password"] == password
    decreases |inputs|
  {
    if inputs != [] {
      FieldsCredentials(inputs[..|inputs| - 1], username, password);
    }
  }

  /** The payload always sends the supplied credentials, whatever inputs
      the form declares (a hidden `username` input cannot override them). */
  lemma PayloadCredentials(inputs: seq<FormInput>, username: string, password: string)
    ensures "username" in LoginPayload(inputs, username, password)
    ensures "password" in LoginPayload(inputs, username, password)
    ensures LoginPayload(inputs, username, password)["username"] == username
    ensures LoginPayload(inputs, username, password)["password"] == password
  {
    FieldsCredentials(inputs, username, password);
  }

  /** What one input does to a key other than the credentials. */
  lemma AddInputOtherKey(data: map<string, string>, inp: FormInput, username: string, password: string, key: string)
    requires key != "username" && key != "password"
    ensures CarriedAs(inp, key) ==>
      key in AddInput(data, inp, username, password) && AddInput(data, inp, username, password)[key] == ValueOf(inp)
    ensures !CarriedAs(inp, key) ==> (key in AddInput(data, inp, username, password) <==> key in data)
    ensures !CarriedAs(inp, key) && key in data ==> AddInput(data, inp, username, password)[key] == data[key]
  {
  }

  /** Every key other than the credentials is present exactly when some
      hidden or submit input carries that name. */
  lemma {:induction false} FieldsOtherKeys(inputs: seq<FormInput>, username: string, password: string, key: string)
    requires key != "username" && key != "password"
    ensures key in Fields(inputs, username, password) <==> exists i :: 0 <= i < |inputs| && CarriedAs(inputs[i], key)
    decreases |inputs|
  {
    if inputs != [] {
      var n := |inputs| - 1;
      var front := inputs[..n];
      FieldsOtherKeys(front, username, password, key);
      AddInputOtherKey(Fields(front, username, password), inputs[n], username, password, key);
      assert forall i :: 0 <= i < n ==> front[i] == inputs[i];
    }
  }

  /** `inputs[i]` is the last input carried under `key`. */
  predicate LastCarrier(inputs: seq<FormInput>, key: string, i: int) {
    0 <= i < |inputs| && CarriedAs(inputs[i], key) && forall j :: i < j < |inputs| ==> !CarriedAs(inputs[j], key)
  }

  /** A last carrier of the inputs before a non-carrier stays the last. */
  lemma LastCarrierExtends(inputs: seq<FormInput>, key: string, i: int)
    requires |inputs| > 0 && !CarriedAs(inputs[|inputs| - 1], key)
    requires LastCarrier(inputs[..|inputs| - 1], key, i)
    ensures LastCarrier(inputs, key, i)
  {
    var front := inputs[..|inputs| - 1];
    assert front[i] == inputs[i];
    forall j | i < j < |inputs| ensures !CarriedAs(inputs[j], key) {
      if j < |front| {
        assert front[j] == inputs[j];
      }
    }
  }

  /** Such a key carries the value of the last input of that name (later
      inputs overwrite earlier ones). */
  lemma {:induction false} FieldsLastWins(inputs: seq<FormInput>, username: string, password: string, key: string)
    requires key != "username" && key != "password"
    requires key in Fields(inputs, username, password)
    ensures exists i :: LastCarrier(inputs, key, i) && Fields(inputs, username, password)[key] == ValueOf(inputs[i])
    decreases |inputs|
  {
    var n := |inputs| - 1;
    var front := inputs[..n];
    var before := Fields(front, username, password);
    assert Fields(inputs, username, password) == AddInput(before, inputs[n], username, password);
    AddInputOtherKey(before, inputs[n], username, password, key);
    if CarriedAs(inputs[n], key) {
      assert LastCarrier(inputs, key, n);
    } else {
      FieldsLastWins(front, username, password, key);
      var i :| LastCarrier(front, key, i) && before[key] == ValueOf(front[i]);
      LastCarrierExtends(inputs, key, i);
    }
  }

  /** The payload holds exactly the two credentials and the named hidden
      or submit inputs; inputs of any other type and nameless inputs are
      dropped. */
  lemma PayloadKeys(inputs: seq<FormInput>, username: string, password: string, key: string)
    requires key != "username" && key != "password"
    ensures key in LoginPayload(inputs, username, password) <==> exists i :: 0 <= i < |inputs| && CarriedAs(inputs[i], key)
  {
    FieldsOtherKeys(inputs, username, password, key);
  }

  /** The `login_data` loop of `login_oidc`. */
  method BuildLoginData(inputs: seq<FormInput>, username: string, password: string) returns (data: map<string, string>)
    ensures data == LoginPayload(inputs, username, password)
  {
    data := map[];
    var i := 0;
    while i < |inputs|
      invariant 0 <= i <= |inputs|
      invariant data == Fields(inputs[..i], username, password)
    {
      var inp := inputs[i];
      assert inputs[..i + 1][..i] == inputs[..i];
      i := i + 1;
      if inp.name.None? || inp.name.value == "" {
        continue;
      }
      var name := inp.name.value;
      var inputType := TypeOf(inp);
      var value := ValueOf(inp);
      if name == "username" {
        data := data[name := username];
      } else if name == "password" {
        data := data[name := password];
      } else if inputType == "hidden" || inputType == "submit" {
        data := data[name := value];
      }
    }
    assert inputs[..i] == inputs;
    if "username" !in data {
      data := data["username" := username];
    }
    if "password" !in data {
      data := data["password" := password];
    }
  }

  /** `urlparse(response.url)`, reduced to the parts used here. */
  datatype ParsedUrl = ParsedUrl(scheme: string, netloc: string, path: string)

  /** The URL the form is posted to. A missing `action` attribute makes
      `form_action.startswith` raise, which `login_oidc` turns into a
      failed login: `None` here. */
  function ResolveAction(action: Option<string>, response: ParsedUrl): (r: Option<string>)
    ensures r.Some? <==> action.Some?
    ensures r.Some? ==> exists prefix :: r.value == prefix + action.value
    ensures r.Some? && "http" <= response.scheme ==> "http" <= r.value
    ensures r.Some? && "http" <= action.value ==> r.value == action.value
    ensures r.Some? && !("http" <= action.value) ==>
      r.value == response.scheme + "://" + response.netloc + action.value
  {
    match action
    case None => None
    case Some(a) =>
      if "http" <= a then
        assert a == [] + a;
        Some(a)
      else
        var origin := response.scheme + "://" + response.netloc;
        assert "http" <= response.scheme ==> "http" <= origin;
        Some(origin + a)
  }

  /** An action that has been resolved once is left alone by a second
      resolution against any http(s) page. */
  lemma ResolveActionIdempotent(action: string, first: ParsedUrl, second: ParsedUrl)
    requires "http" <= first.scheme
    ensures ResolveAction(Some(ResolveAction(Some(action), first).value), second) == ResolveAction(Some(action), first)
  {
  }

  /** The auth URL main.py configures, in three parts: host, realm
      endpoint and the final `/auth` segment. */
  const AuthDomain: string := ".permisdeconduire.gouv.fr"
  const AuthHost: string := "https://auth" + AuthDomain
  const RealmEndpoint: string := "/realms/formation/protocol/openid-connect"
  const AuthUrl: string := AuthHost + RealmEndpoint + "/auth"

  /** `self.auth_url.replace('/auth', '/token')` */
  function TokenUrl(authUrl: string): string {
    ReplaceAll(authUrl, "/auth", "/token")
  }

  /** On any `https://auth...` URL the replacement also hits the `//auth`
      of the host name, so the host becomes `token...`. */
  lemma {:induction false} TokenUrlRewritesAuthHost(rest: string)
    ensures "https://token" <= TokenUrl("https://auth" + rest)
  {
    var p := "https:/";
    var s := "/auth" + rest;
    assert "https://auth" + rest == p + s;
    forall i | 0 <= i < |p| ensures !("/auth" <= (p + s)[i..]) {
      assert (p + s)[i + 1] == (p + s)[i..][1];
      assert (p + s)[i] == (p + s)[i..][0];
    }
    ReplaceUntouched(p, s, "/auth", "/token");
    ReplaceHead(rest, "/auth", "/token");
  }

  /** The configured URL is such a URL: the token request is sent to a
      `token.` host instead of the `auth.` host that serves the realm. */
  lemma TokenUrlRewritesHost()
    ensures "https://token" <= TokenUrl(AuthUrl)
    ensures !("https://auth" <= TokenUrl(AuthUrl))
  {
    var rest := AuthDomain + RealmEndpoint + "/auth";
    assert AuthUrl == "https://auth" + rest;
    TokenUrlRewritesAuthHost(rest);
    assert TokenUrl(AuthUrl)[8] == "https://token"[8];
  }

  /** The token endpoint the configuration evidently means: only the final
      `/auth` path segment becomes `/token`. */
  function IntendedTokenUrl(authUrl: string): string {
    if |authUrl| >= 5 && authUrl[|authUrl| - 5..] == "/auth" then authUrl[..|authUrl| - 5] + "/token" else authUrl
  }

  /** The intended endpoint keeps everything before the last segment, host
      included. */
  lemma IntendedTokenUrlKeepsHost(base: string)
    ensures IntendedTokenUrl(base + "/auth") == base + "/token"
    ensures IntendedTokenUrl(AuthUrl) == AuthHost + RealmEndpoint + "/token"
  {
    assert (base + "/auth")[|base|..] == "/auth";
    assert (base + "/auth")[..|base|] == base;
    var configured := AuthHost + RealmEndpoint;
    assert AuthUrl[|configured|..] == "/auth";
    assert AuthUrl[..|configured|] == configured;
  }
}
