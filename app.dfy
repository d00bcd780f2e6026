/**
 * The route handlers.  The SQLite database is two objects, one map per table,
 * grouped by the handlers that write them; a handler that writes builds its new
 * tables first and assigns them at the end, so an aborted transaction
 * (`commits == false`) leaves every table as it was.
 */
module App {
  import opened Wrappers
  import opened Records
  import opened Web
  import opened MedLines
  import Helpers
  import MedIndex
  import Search
  import Accounts

  /** The submitted fields of the prescription form (create and edit). */
  datatype PrescriptionForm = PrescriptionForm(
    day: Text, month: Text, year: Text,
    patientName: Text, age: Text, sex: Text,
    vitals: Vitals, meds: MedColumns)

  /** A prescription with its rows; medications keyed (and so ordered) by sequence. */
  datatype Record = Record(prescription: Prescription, patient: Option<Patient>, vitals: Option<Vitals>, medications: map<int, MedLine>)

  /** A prescription row with the form's date fields, digits only. */
  function Redated(pr: Prescription, isDigit: char -> bool, form: PrescriptionForm): (r: Prescription)
    ensures r.userId == pr.userId
  {
    pr.(day := Helpers.Norm(isDigit, form.day), month := Helpers.Norm(isDigit, form.month),
        year := Helpers.Norm(isDigit, form.year))
  }

  /** The answer of the view and edit pages to a GET. */
  datatype Page = Denied(response: Response) | Shown(id: PrescriptionId, record: Record)

  /** Per-name suggestion lists, most common value first. */
  type MedData = map<string, map<MedIndex.Field, seq<string>>>

  /** The data the home page hands to its template. */
  datatype Bundle =
    | FullBundle(doctor: Option<Doctor>, clinic: Option<Clinic>, medData: MedData)
    | AccountBundle(doctor: Option<Doctor>, clinic: Option<Clinic>)
    | NoBundle

  /** The home page: whether the welcome message is flashed, and its data. */
  datatype HomePage = HomePage(welcome: bool, bundle: Bundle)

  /** The search page's answer: a response, or the query it runs. */
  datatype SearchReply =
    | Answered(response: Response)
    | RunQuery(clauses: seq<Search.Clause>, params: map<Search.ParamKey, Search.ParamValue>)

  /** Which data the home page sends, decided on the session's `sent` and `account` flags. */
  datatype Delivery = Full | AccountOnly | Nothing

  function HomeDelivery(sent: bool, account: bool): Delivery {
    if !sent then Full else if !account then AccountOnly else Nothing
  }

  /** The flags after a home page view: `sent` is set, then `account`. */
  function NextFlags(sent: bool, account: bool): (bool, bool) {
    if !sent then (true, account) else (true, true)
  }

  /**
   * Two views of the home page always exhaust it: whatever the flags, the
   * third view sends no data, and a view right after login sends everything.
   */
  lemma {:induction false} ThirdHomeView(sent: bool, account: bool)
    ensures HomeDelivery(false, account) == Full
    ensures var (s1, a1) := NextFlags(sent, account);
      var (s2, a2) := NextFlags(s1, a1);
      HomeDelivery(s2, a2) == Nothing
  {
  }

  function Lookup<K, V>(m: map<K, V>, k: K): Option<V> {
    if k in m then Some(m[k]) else None
  }

  /**
   * `SELECT * FROM medications WHERE user_id = :id`: the user's rows, taken
   * in rowid order.  The query has no `ORDER BY`; rowid order is what SQLite
   * returns for a plain scan and is assumed here.
   */
  function RowsOf(order: seq<MedKey>, meds: map<MedKey, MedRow>, uid: UserId): (rows: seq<MedLine>)
    ensures |rows| <= |order|
  {
    if order == [] then []
    else
      var k := order[|order| - 1];
      RowsOf(order[..|order| - 1], meds, uid) + (if k in meds && meds[k].userId == uid then [meds[k].line] else [])
  }

  /** Every line of `RowsOf` is the line of one of the user's rows. */
  lemma {:induction false} RowsOfOwned(order: seq<MedKey>, meds: map<MedKey, MedRow>, uid: UserId)
    ensures forall line :: line in RowsOf(order, meds, uid) <==>
      exists k :: k in order && k in meds && meds[k].userId == uid && meds[k].line == line
  {
    if order != [] {
      var init := order[..|order| - 1];
      RowsOfOwned(init, meds, uid);
      assert order == init + [order[|order| - 1]];
    }
  }

  /** The user's rows, among those `order` lists, that hold `line`. */
  ghost function Holders(order: seq<MedKey>, meds: map<MedKey, MedRow>, uid: UserId, line: MedLine): set<MedKey> {
    set k | k in order && k in meds && meds[k].userId == uid && meds[k].line == line
  }

  /**
   * Over a duplicate-free rowid order, `RowsOf` lists each line as many times
   * as the user has rows holding it: these are the counts `Counter` ranks by.
   */
  lemma {:induction false} RowsOfCount(order: seq<MedKey>, meds: map<MedKey, MedRow>, uid: UserId, line: MedLine)
    requires forall i, j :: 0 <= i < j < |order| ==> order[i] != order[j]
    ensures multiset(RowsOf(order, meds, uid))[line] == |Holders(order, meds, uid, line)|
  {
    if order == [] {
      assert Holders(order, meds, uid, line) == {};
    } else {
      var init, k := order[..|order| - 1], order[|order| - 1];
      assert forall i, j :: 0 <= i < j < |init| ==> init[i] != init[j];
      RowsOfCount(init, meds, uid, line);
      var last := if k in meds && meds[k].userId == uid then [meds[k].line] else [];
      assert multiset(RowsOf(order, meds, uid)) == multiset(RowsOf(init, meds, uid)) + multiset(last);
      HoldersStep(order, meds, uid, line);
    }
  }

  /** Removing the last key of a duplicate-free order removes it from the holders. */
  lemma HoldersStep(order: seq<MedKey>, meds: map<MedKey, MedRow>, uid: UserId, line: MedLine)
    requires order != []
    requires forall i, j :: 0 <= i < j < |order| ==> order[i] != order[j]
    ensures var init, k := order[..|order| - 1], order[|order| - 1];
      Holders(order, meds, uid, line) ==
        Holders(init, meds, uid, line) + (if k in meds && meds[k].userId == uid && meds[k].line == line then {k} else {})
    ensures order[|order| - 1] !in Holders(order[..|order| - 1], meds, uid, line)
  {
    var init, k := order[..|order| - 1], order[|order| - 1];
    assert order == init + [k];
    assert k !in init by {
      forall i | 0 <= i < |init| ensures init[i] != k {
        assert init[i] == order[i];
      }
    }
  }

  /**
   * The medications table agrees with the prescriptions: every row belongs to
   * an existing prescription and carries its owner, and the rowid order lists
   * each row exactly once.
   */
  ghost predicate MedsConsistent(prescriptions: map<PrescriptionId, Prescription>, medications: map<MedKey, MedRow>, rowOrder: seq<MedKey>) {
    && (forall k {:trigger k in medications} :: k in medications ==> k.0 in prescriptions && medications[k].userId == prescriptions[k.0].userId)
    && (forall i, j :: 0 <= i < j < |rowOrder| ==> rowOrder[i] != rowOrder[j])
    && (forall k :: k in rowOrder <==> k in medications)
  }

  /** The creation loop of `/` POST, over the zipped lines. */
  method InsertNamed(meds0: map<MedKey, MedRow>, order0: seq<MedKey>, id: PrescriptionId, uid: UserId, lines: seq<MedLine>)
    returns (meds: map<MedKey, MedRow>, order: seq<MedKey>)
    ensures meds == meds0 + Created(id, uid, lines, |lines|)
    ensures order == order0 + CreatedKeys(id, lines, |lines|)
  {
    meds, order := meds0, order0;
    for i := 0 to |lines|
      invariant meds == meds0 + Created(id, uid, lines, i)
      invariant order == order0 + CreatedKeys(id, lines, i)
    {
      var index := i + 1;
      if lines[i].name != "" {
        MapAddUpdate(meds0, Created(id, uid, lines, i), (id, index), MedRow(lines[i], uid));
        meds := meds[(id, index) := MedRow(lines[i], uid)];
        order := order + [(id, index)];
      }
    }
  }

  lemma {:induction false} MapAddUpdate(a: map<MedKey, MedRow>, b: map<MedKey, MedRow>, k: MedKey, v: MedRow)
    ensures (a + b)[k := v] == a + b[k := v]
  {
  }

  /**
   * The edit loop of `/edit` POST: `existing` is the snapshot of the
   * prescription's sequences taken before the loop.
   */
  method ReconcileNamed(meds0: map<MedKey, MedRow>, order0: seq<MedKey>, p: PrescriptionId, uid: UserId, lines: seq<MedLine>)
    returns (meds: map<MedKey, MedRow>, order: seq<MedKey>)
    ensures meds == Reconciled(meds0, p, uid, lines, |lines|)
    ensures order == order0 + InsertedKeys(p, lines, meds0, |lines|)
  {
    var existing := set k | k in meds0 && k.0 == p :: k.1;
    meds, order := meds0, order0;
    for i := 0 to |lines|
      invariant meds == Reconciled(meds0, p, uid, lines, i)
      invariant order == order0 + InsertedKeys(p, lines, meds0, i)
    {
      var index := i + 1;
      ReconciledFacts(meds0, p, uid, lines, i);
      if lines[i].name != "" {
        if index in existing {
          assert (p, index) in meds0;
          meds := meds[(p, index) := meds[(p, index)].(line := lines[i])];
        } else {
          meds := meds[(p, index) := MedRow(lines[i], uid)];
          order := order + [(p, index)];
        }
      }
    }
  }

  /**
   * The prescription side of the store is well formed: fresh prescription
   * ids stay fresh, every prescription has a patient and a vitals row, and the
   * medications agree with the prescriptions.
   */
  ghost predicate StoreValid(prescriptions: map<PrescriptionId, Prescription>, patients: map<PrescriptionId, Patient>,
                             vitals: map<PrescriptionId, Vitals>, medications: map<MedKey, MedRow>, rowOrder: seq<MedKey>,
                             nextPrescriptionId: PrescriptionId) {
    && (forall p :: p in prescriptions ==> p < nextPrescriptionId)
    && patients.Keys == prescriptions.Keys && vitals.Keys == prescriptions.Keys
    && MedsConsistent(prescriptions, medications, rowOrder)
  }

  /**
   * The account side of the store is well formed: fresh user ids stay fresh,
   * every user has a doctor and a clinic row, and usernames are present and
   * unique.
   */
  ghost predicate AccountsValid(users: map<UserId, User>, doctors: map<UserId, Doctor>, clinics: map<UserId, Clinic>,
                                nextUserId: UserId) {
    && (forall u :: u in users ==> u < nextUserId)
    && doctors.Keys == users.Keys && clinics.Keys == users.Keys
    && (forall u :: u in users ==> users[u].username != "")
    && (forall u, v :: u in users && v in users && users[u].username == users[v].username ==> u == v)
  }

  /** Creating a prescription under a fresh id keeps the medications consistent. */
  lemma {:induction false} CreateMedsConsistent(prescriptions: map<PrescriptionId, Prescription>, meds: map<MedKey, MedRow>, order: seq<MedKey>,
                             id: PrescriptionId, pr: Prescription, lines: seq<MedLine>)
    requires MedsConsistent(prescriptions, meds, order) && id !in prescriptions
    ensures MedsConsistent(prescriptions[id := pr], meds + Created(id, pr.userId, lines, |lines|),
                           order + CreatedKeys(id, lines, |lines|))
  {
    var c := Created(id, pr.userId, lines, |lines|);
    var ks := CreatedKeys(id, lines, |lines|);
    CreatedInsertOrder(id, pr.userId, lines, |lines|);
    CreatedKeysFacts(id, lines, |lines|);
    CreatedFacts(id, pr.userId, lines, |lines|);
    var prs', meds', order' := prescriptions[id := pr], meds + c, order + ks;
    forall k | k in meds' ensures k.0 in prs' && meds'[k].userId == prs'[k.0].userId {
      if k !in c {
        assert k in meds;
      }
    }
    forall i, j | 0 <= i < j < |order'| ensures order'[i] != order'[j] {
      if i < |order| && j >= |order| {
        assert order[i] in order && order'[j] == ks[j - |order|] && ks[j - |order|] in ks;
      } else if i >= |order| {
        assert order'[i] == ks[i - |order|] && order'[j] == ks[j - |order|];
      }
    }
    forall k ensures k in order' <==> k in meds' {
      assert k in order' <==> k in order || k in ks;
    }
  }

  /** Creating a prescription under the next id keeps the store well formed. */
  lemma {:induction false} CreateConsistent(prescriptions: map<PrescriptionId, Prescription>, patients: map<PrescriptionId, Patient>,
                         vitals: map<PrescriptionId, Vitals>, meds: map<MedKey, MedRow>, order: seq<MedKey>,
                         id: PrescriptionId, pr: Prescription, pat: Patient, v: Vitals, lines: seq<MedLine>,
                         meds': map<MedKey, MedRow>, order': seq<MedKey>)
    requires StoreValid(prescriptions, patients, vitals, meds, order, id)
    requires meds' == meds + Created(id, pr.userId, lines, |lines|)
    requires order' == order + CreatedKeys(id, lines, |lines|)
    ensures StoreValid(prescriptions[id := pr], patients[id := pat], vitals[id := v], meds', order', id + 1)
  {
    CreateMedsConsistent(prescriptions, meds, order, id, pr, lines);
  }

  /** After an edit every medication row still carries its prescription's owner. */
  lemma {:induction false} EditOwners(prescriptions: map<PrescriptionId, Prescription>, meds: map<MedKey, MedRow>,
                   p: PrescriptionId, pr: Prescription, lines: seq<MedLine>, r: map<MedKey, MedRow>)
    requires forall k {:trigger k in meds} :: k in meds ==> k.0 in prescriptions && meds[k].userId == prescriptions[k.0].userId
    requires p in prescriptions && prescriptions[p].userId == pr.userId
    requires r == Reconciled(meds, p, pr.userId, lines, |lines|)
    ensures forall k {:trigger k in r} :: k in r ==> k.0 in prescriptions[p := pr] && r[k].userId == prescriptions[p := pr][k.0].userId
  {
    ReconciledFacts(meds, p, pr.userId, lines, |lines|);
  }

  /** The edit INSERTs append keys the rowid order did not hold, each once. */
  lemma {:induction false} EditDistinct(meds: map<MedKey, MedRow>, order: seq<MedKey>, p: PrescriptionId, lines: seq<MedLine>)
    requires forall i, j :: 0 <= i < j < |order| ==> order[i] != order[j]
    requires forall k :: k in order ==> k in meds
    ensures var order' := order + InsertedKeys(p, lines, meds, |lines|);
      forall i, j :: 0 <= i < j < |order'| ==> order'[i] != order'[j]
  {
    var ins := InsertedKeys(p, lines, meds, |lines|);
    var order' := order + ins;
    InsertedKeysFacts(p, lines, meds, |lines|);
    forall i, j | 0 <= i < j < |order'| ensures order'[i] != order'[j] {
      if j >= |order| && i < |order| {
        assert order[i] in order && order'[j] == ins[j - |order|] && ins[j - |order|] in ins;
      } else if i >= |order| {
        assert order'[i] == ins[i - |order|] && order'[j] == ins[j - |order|];
      }
    }
  }

  /** After an edit the rowid order lists exactly the rows of the table. */
  lemma {:induction false} EditMembership(meds: map<MedKey, MedRow>, order: seq<MedKey>, p: PrescriptionId, uid: UserId, lines: seq<MedLine>)
    requires forall k :: k in order <==> k in meds
    ensures forall k :: k in order + InsertedKeys(p, lines, meds, |lines|) <==> k in Reconciled(meds, p, uid, lines, |lines|)
  {
    InsertedKeysFacts(p, lines, meds, |lines|);
    ReconciledFacts(meds, p, uid, lines, |lines|);
  }

  /** Editing an owned prescription keeps the medications consistent. */
  lemma {:induction false} EditMedsConsistent(prescriptions: map<PrescriptionId, Prescription>, meds: map<MedKey, MedRow>, order: seq<MedKey>,
                           p: PrescriptionId, pr: Prescription, lines: seq<MedLine>)
    requires MedsConsistent(prescriptions, meds, order)
    requires p in prescriptions && prescriptions[p].userId == pr.userId
    ensures MedsConsistent(prescriptions[p := pr], Reconciled(meds, p, pr.userId, lines, |lines|),
                           order + InsertedKeys(p, lines, meds, |lines|))
  {
    EditOwners(prescriptions, meds, p, pr, lines, Reconciled(meds, p, pr.userId, lines, |lines|));
    EditDistinct(meds, order, p, lines);
    EditMembership(meds, order, p, pr.userId, lines);
  }

  /** Editing an owned prescription keeps the store well formed. */
  lemma {:induction false} EditConsistent(prescriptions: map<PrescriptionId, Prescription>, patients: map<PrescriptionId, Patient>,
                       vitals: map<PrescriptionId, Vitals>, meds: map<MedKey, MedRow>, order: seq<MedKey>, next: PrescriptionId,
                       p: PrescriptionId, pr: Prescription, pat: Patient, v: Vitals, lines: seq<MedLine>,
                       meds': map<MedKey, MedRow>, order': seq<MedKey>)
    requires StoreValid(prescriptions, patients, vitals, meds, order, next)
    requires p in prescriptions && prescriptions[p].userId == pr.userId
    requires meds' == Reconciled(meds, p, pr.userId, lines, |lines|)
    requires order' == order + InsertedKeys(p, lines, meds, |lines|)
    ensures StoreValid(prescriptions[p := pr], patients[p := pat], vitals[p := v], meds', order', next)
  {
    EditMedsConsistent(prescriptions, meds, order, p, pr, lines);
  }

  function RegisterMsg(e: Accounts.RegisterError): Msg {
    match e
    case UsernameExists => Msg.UsernameExists
    case MissingUsername => Msg.MissingUsername
    case MissingPassword => Msg.MissingPassword
    case PasswordMismatch => Msg.PasswordMismatch
  }

  function PasswordMsg(e: Accounts.PasswordError): Msg {
    match e
    case NoNewPassword => MissingPassword
    case NewPasswordMismatch => PasswordMismatch
  }

  /** `/login` GET: the session is cleared with both flags down. */
  method LoginForm(session: Session) returns (resp: Response)
    modifies session
    ensures session.Cleared()
    ensures resp == Render(LoginPage, None)
  {
    session.Clear();
    session.sent, session.checked := false, false;
    resp := Render(LoginPage, None);
  }

  /** `/logout` */
  method Logout(session: Session) returns (resp: Response)
    modifies session
    ensures session.Cleared()
    ensures resp == Redirect(Path("/login"), Some(LoggedOut))
  {
    session.Clear();
    resp := Redirect(Path("/login"), Some(LoggedOut));
  }

  /** `/refresh`: only `sent` is lowered, so the next home page sends everything again. */
  method Refresh(session: Session) returns (resp: Response)
    modifies session`sent
    ensures !session.sent
    ensures HomeDelivery(session.sent, session.account) == Full
    ensures resp == Redirect(Path("/"), None)
  {
    session.sent := false;
    resp := Redirect(Path("/"), None);
  }

  /** `/account`: viewing the account page withdraws the password confirmation. */
  method AccountPage(session: Session) returns (resp: Response)
    modifies session`checked
    ensures !session.checked
    ensures resp == Render(Template.AccountPage, None)
  {
    session.checked := false;
    resp := Render(Template.AccountPage, None);
  }

  /**
   * The users, doctors and clinics tables: the rows the account handlers
   * write.
   */
  class AccountStore {
    var users: map<UserId, User>
    var doctors: map<UserId, Doctor>
    var clinics: map<UserId, Clinic>
    var nextUserId: UserId

    ghost predicate Valid()
      reads this
    {
      AccountsValid(users, doctors, clinics, nextUserId)
    }

    constructor ()
      ensures Valid()
      ensures users == map[] && doctors == map[] && clinics == map[]
    {
      users, doctors, clinics := map[], map[], map[];
      nextUserId := 1;
    }

    /** `SELECT id FROM users WHERE username = :name` finds a row. */
    predicate UsernameTaken(name: Text)
      reads this
    {
      name.Some? && exists u :: u in users && users[u].username == name.value
    }

    /** `/users`: the availability notice for a username being typed. */
    function UsernameNotice(name: Text): (notice: string)
      reads this
      ensures notice == "" <==> !UsernameTaken(name)
      ensures notice != "" ==> notice == "This Username is already taken"
    {
      if UsernameTaken(name) then "This Username is already taken" else ""
    }

    /** `/register` POST. */
    method Register(username: Text, password: Text, confirmation: Text, doctor: Doctor, clinic: Clinic,
                    hashed: string, commits: bool) returns (resp: Response)
      requires Valid()
      modifies this
      ensures Valid()
      ensures Accounts.RegisterCheck(old(UsernameTaken(username)), username, password, confirmation).Some? ==>
        && resp == Render(RegisterPage, Some(RegisterMsg(
             Accounts.RegisterCheck(old(UsernameTaken(username)), username, password, confirmation).value)))
        && unchanged(this)
      ensures Accounts.RegisterCheck(old(UsernameTaken(username)), username, password, confirmation).None? && !commits ==>
        resp == Render(RegisterPage, Some(RegistrationFailed)) && unchanged(this)
      ensures Accounts.RegisterCheck(old(UsernameTaken(username)), username, password, confirmation).None? && commits ==>
        && old(nextUserId) !in old(users)
        && users == old(users)[old(nextUserId) := User(username.value, hashed)]
        && doctors == old(doctors)[old(nextUserId) := doctor]
        && clinics == old(clinics)[old(nextUserId) := clinic]
        && nextUserId == old(nextUserId) + 1
        && resp == Redirect(Path("/login"), Some(Registered))
    {
      var e := Accounts.RegisterCheck(UsernameTaken(username), username, password, confirmation);
      if e.Some? {
        return Render(RegisterPage, Some(RegisterMsg(e.value)));
      }
      if !commits {
        return Render(RegisterPage, Some(RegistrationFailed));
      }
      var u := nextUserId;
      users := users[u := User(username.value, hashed)];
      doctors := doctors[u := doctor];
      clinics := clinics[u := clinic];
      nextUserId := u + 1;
      resp := Redirect(Path("/login"), Some(Registered));
    }

    /**
     * `/login` POST.  The session is cleared first; it gets the user id of
     * exactly the user whose username was given and whose stored hash the
     * password verifies against.
     */
    method Login(session: Session, username: Text, password: Text, verify: (string, Text) -> bool) returns (resp: Response)
      requires Valid()
      modifies session
      ensures !session.sent && !session.checked && !session.greet && !session.account && session.nextUrl.None?
      ensures Accounts.LoginCheck(username, password) == Some(Accounts.NoUsername) ==>
        resp == Render(LoginPage, Some(MissingUsername)) && session.userId.None?
      ensures Accounts.LoginCheck(username, password) == Some(Accounts.NoPassword) ==>
        resp == Render(LoginPage, Some(MissingPassword)) && session.userId.None?
      ensures session.userId.Some? <==>
        Accounts.LoginCheck(username, password).None? &&
        exists u :: u in users && users[u].username == username.value && verify(users[u].hash, password)
      ensures session.userId.Some? ==>
        && session.userId.value in users
        && users[session.userId.value].username == username.value
        && resp == Redirect(Path("/"), Some(LoggedIn))
      ensures Accounts.LoginCheck(username, password).None? && session.userId.None? ==>
        resp == Render(LoginPage, Some(InvalidLogin))
    {
      session.Clear();
      session.sent, session.checked := false, false;
      var e := Accounts.LoginCheck(username, password);
      if e == Some(Accounts.NoUsername) {
        return Render(LoginPage, Some(MissingUsername));
      } else if e == Some(Accounts.NoPassword) {
        return Render(LoginPage, Some(MissingPassword));
      }
      var name := username.value;
      if u :| u in users && users[u].username == name {
        if verify(users[u].hash, password) {
          session.userId := Some(u);
          return Redirect(Path("/"), Some(LoggedIn));
        }
      }
      resp := Render(LoginPage, Some(InvalidLogin));
    }

    /**
     * `/check` POST: the password is checked against the session user's
     * stored hash.  On success the session is confirmed and the saved
     * `next_url` is popped and followed (the home page when none was saved);
     * otherwise the session is left as it was.
     */
    method Confirm(session: Session, password: Text, verify: (string, Text) -> bool) returns (resp: Response)
      requires session.userId.Some?
      modifies session`checked, session`nextUrl
      ensures var uid := session.userId.value;
        session.checked <==> old(session.checked) || (uid in users && verify(users[uid].hash, password))
      ensures var uid := session.userId.value;
        uid in users && verify(users[uid].hash, password) ==>
          && session.nextUrl.None?
          && resp == Redirect(Path(if old(session.nextUrl).Some? then old(session.nextUrl).value else "/"), None)
      ensures var uid := session.userId.value;
        !(uid in users && verify(users[uid].hash, password)) ==>
          && session.nextUrl == old(session.nextUrl)
          && resp == Render(CheckPage, Some(InvalidPassword))
    {
      var uid := session.userId.value;
      if uid in users && verify(users[uid].hash, password) {
        session.checked := true;
        var next := if session.nextUrl.Some? then session.nextUrl.value else "/";
        session.nextUrl := None;
        resp := Redirect(Path(next), None);
      } else {
        resp := Render(CheckPage, Some(InvalidPassword));
      }
    }

    /**
     * `/password` POST: after the password checks, the user's hash is
     * replaced in one transaction and the user is sent to log out; no other
     * column or row changes.
     */
    method ChangePassword(uid: UserId, password: Text, confirmation: Text, hashed: string, commits: bool)
      returns (resp: Response)
      requires Valid()
      modifies this`users
      ensures Valid()
      ensures Accounts.PasswordCheck(password, confirmation).Some? ==>
        && resp == Render(PasswordPage, Some(PasswordMsg(Accounts.PasswordCheck(password, confirmation).value)))
        && users == old(users)
      ensures Accounts.PasswordCheck(password, confirmation).None? && !commits ==>
        resp == Redirect(Path("/account"), Some(PasswordChangeFailed)) && users == old(users)
      ensures Accounts.PasswordCheck(password, confirmation).None? && commits ==>
        && users == (if uid in old(users) then old(users)[uid := old(users)[uid].(hash := hashed)] else old(users))
        && resp == Redirect(Path("/logout"), Some(PasswordChanged))
      ensures users.Keys == old(users).Keys
      ensures forall u :: u in users ==> users[u].username == old(users)[u].username
    {
      var e := Accounts.PasswordCheck(password, confirmation);
      if e.Some? {
        return Render(PasswordPage, Some(PasswordMsg(e.value)));
      }
      if !commits {
        return Redirect(Path("/account"), Some(PasswordChangeFailed));
      }
      if uid in users {
        users := users[uid := users[uid].(hash := hashed)];
      }
      resp := Redirect(Path("/logout"), Some(PasswordChanged));
    }

    /**
     * `/change` POST: the user's doctor and clinic rows are overwritten in
     * one transaction; on success the session is told to send the account
     * data to the home page again.
     */
    method ChangeProfile(session: Session, uid: UserId, doctor: Doctor, clinic: Clinic, commits: bool)
      returns (resp: Response)
      requires Valid()
      modifies this`doctors, this`clinics, session`account
      ensures Valid()
      ensures commits ==>
        && doctors == (if uid in old(doctors) then old(doctors)[uid := doctor] else old(doctors))
        && clinics == (if uid in old(clinics) then old(clinics)[uid := clinic] else old(clinics))
        && !session.account
        && (session.sent ==> HomeDelivery(session.sent, session.account) == AccountOnly)
        && resp == Redirect(Path("/account"), Some(InfoChanged))
      ensures !commits ==>
        && doctors == old(doctors) && clinics == old(clinics)
        && session.account == old(session.account)
        && resp == Redirect(Path("/account"), Some(InfoChangeFailed))
    {
      if !commits {
        return Redirect(Path("/account"), Some(InfoChangeFailed));
      }
      if uid in doctors {
        doctors := doctors[uid := doctor];
      }
      if uid in clinics {
        clinics := clinics[uid := clinic];
      }
      session.account := false;
      resp := Redirect(Path("/account"), Some(InfoChanged));
    }
  }

  /**
   * The prescriptions, patients, vitals and medications tables: the rows the
   * prescription handlers write.
   */
  class PrescriptionStore {
    var prescriptions: map<PrescriptionId, Prescription>
    var patients: map<PrescriptionId, Patient>
    var vitals: map<PrescriptionId, Vitals>
    var medications: map<MedKey, MedRow>
    /** The medication keys in rowid order. */
    var rowOrder: seq<MedKey>
    var nextPrescriptionId: PrescriptionId

    ghost predicate Valid()
      reads this
    {
      StoreValid(prescriptions, patients, vitals, medications, rowOrder, nextPrescriptionId)
    }

    constructor ()
      ensures Valid()
      ensures prescriptions == map[] && medications == map[] && rowOrder == []
    {
      prescriptions, patients, vitals := map[], map[], map[];
      medications, rowOrder := map[], [];
      nextPrescriptionId := 1;
    }

    /** The prescription exists and belongs to `uid`. */
    predicate Owns(uid: UserId, id: int)
      reads this
    {
      id in prescriptions && prescriptions[id].userId == uid
    }

    /**
     * `/` POST: a new prescription with its patient and vitals rows and one
     * medication row per named position of the zipped arrays, at sequence =
     * position, all in one transaction.
     */
    method CreatePrescription(uid: UserId, form: PrescriptionForm, isDigit: char -> bool, commits: bool)
      returns (resp: Response)
      requires Valid()
      modifies this
      ensures Valid()
      ensures !Truthy(form.patientName) ==> resp == Redirect(Path("/"), Some(MissingPatientName)) && unchanged(this)
      ensures Truthy(form.patientName) && !commits ==> resp == Render(IndexPage, Some(SaveFailed)) && unchanged(this)
      ensures Truthy(form.patientName) && commits ==>
        var id, lines := old(nextPrescriptionId), Zip(form.meds);
        && id !in old(prescriptions)
        && prescriptions == old(prescriptions)[id := Prescription(uid,
             Helpers.Norm(isDigit, form.day), Helpers.Norm(isDigit, form.month), Helpers.Norm(isDigit, form.year))]
        && patients == old(patients)[id := Patient(form.patientName, form.age, form.sex)]
        && vitals == old(vitals)[id := form.vitals]
        && medications == old(medications) + Created(id, uid, lines, |lines|)
        && rowOrder == old(rowOrder) + CreatedKeys(id, lines, |lines|)
        && nextPrescriptionId == id + 1
        && resp == Redirect(ViewPage(id), Some(PrescriptionSaved))
    {
      var day, month, year := Helpers.Norm(isDigit, form.day), Helpers.Norm(isDigit, form.month), Helpers.Norm(isDigit, form.year);
      if !Truthy(form.patientName) {
        return Redirect(Path("/"), Some(MissingPatientName));
      }
      if !commits {
        return Render(IndexPage, Some(SaveFailed));
      }
      var id := nextPrescriptionId;
      var lines := Zip(form.meds);
      var meds, order := InsertNamed(medications, rowOrder, id, uid, lines);
      var pr, pat := Prescription(uid, day, month, year), Patient(form.patientName, form.age, form.sex);
      CreateConsistent(prescriptions, patients, vitals, medications, rowOrder, id, pr, pat, form.vitals, lines, meds, order);
      prescriptions, patients, vitals := prescriptions[id := pr], patients[id := pat], vitals[id := form.vitals];
      medications, rowOrder, nextPrescriptionId := meds, order, id + 1;
      resp := Redirect(ViewPage(id), Some(PrescriptionSaved));
    }

    /**
     * `/view` and `/edit` GET: a prescription is shown only to its owner,
     * with its own patient, vitals and medication rows.
     */
    function Open(uid: UserId, id: Option<int>): (page: Page)
      reads this
      ensures id.None? ==> page == Denied(Redirect(Path("/"), Some(InvalidId)))
      ensures id.Some? && !Owns(uid, id.value) ==> page == Denied(Redirect(Path("/"), Some(NoAccess)))
      ensures page.Shown? <==> id.Some? && Owns(uid, id.value)
      ensures page.Shown? ==>
        && page.id == id.value
        && page.record.prescription == prescriptions[page.id]
        && page.record.prescription.userId == uid
        && page.record.patient == Lookup(patients, page.id)
        && page.record.vitals == Lookup(vitals, page.id)
        && (forall s :: s in page.record.medications <==> (page.id, s) in medications)
        && (forall s :: s in page.record.medications ==> page.record.medications[s] == medications[(page.id, s)].line)
    {
      if id.None? then Denied(Redirect(Path("/"), Some(InvalidId)))
      else if !Owns(uid, id.value) then Denied(Redirect(Path("/"), Some(NoAccess)))
      else
        var p := id.value;
        var meds := map k | k in medications && k.0 == p :: k.1 := medications[k].line;
        assert forall s :: (p, s) in medications ==> s in meds;
        Shown(p, Record(prescriptions[p], Lookup(patients, p), Lookup(vitals, p), meds))
    }

    /**
     * `/edit` POST: the owner's prescription, patient and vitals rows are
     * overwritten; a named position whose sequence the prescription already
     * had updates that row, any other named position inserts one.  No row is
     * deleted.  A failing edit transaction, which the database rolls back
     * before the framework answers with a server error, is not modelled.
     */
    method EditPrescription(uid: UserId, id: Option<int>, form: PrescriptionForm, isDigit: char -> bool)
      returns (resp: Response)
      requires Valid()
      modifies this
      ensures Valid()
      ensures id.None? ==> resp == Redirect(Path("/"), Some(InvalidId)) && unchanged(this)
      ensures id.Some? && !old(Owns(uid, id.value)) ==> resp == Redirect(Path("/"), Some(NoAccess)) && unchanged(this)
      ensures id.Some? && old(Owns(uid, id.value)) ==>
        var p, lines := id.value, Zip(form.meds);
        && prescriptions == old(prescriptions)[p := Redated(old(prescriptions)[p], isDigit, form)]
        && patients == old(patients)[p := Patient(form.patientName, form.age, form.sex)]
        && vitals == old(vitals)[p := form.vitals]
        && medications == Reconciled(old(medications), p, uid, lines, |lines|)
        && rowOrder == old(rowOrder) + InsertedKeys(p, lines, old(medications), |lines|)
        && nextPrescriptionId == old(nextPrescriptionId)
        && resp == Redirect(ViewPage(p), Some(PrescriptionUpdated))
    {
      if id.None? {
        return Redirect(Path("/"), Some(InvalidId));
      }
      var p := id.value;
      if !Owns(uid, p) {
        return Redirect(Path("/"), Some(NoAccess));
      }
      var lines := Zip(form.meds);
      var meds, order := ReconcileNamed(medications, rowOrder, p, uid, lines);
      var pr := Redated(prescriptions[p], isDigit, form);
      var pat := Patient(form.patientName, form.age, form.sex);
      EditConsistent(prescriptions, patients, vitals, medications, rowOrder, nextPrescriptionId, p, pr, pat, form.vitals, lines, meds, order);
      prescriptions, patients, vitals := prescriptions[p := pr], patients[p := pat], vitals[p := form.vitals];
      medications, rowOrder := meds, order;
      resp := Redirect(ViewPage(p), Some(PrescriptionUpdated));
    }

    /**
     * `/search` POST.  A non-empty id is looked up for the session user
     * only: an owned one redirects to its view page with the submitted text,
     * any other one is refused.  Without an id the filters become the query.
     * `idAsInteger` is the number the database reads the id text as.
     */
    method SearchSubmit(uid: UserId, id: Text, idAsInteger: Option<int>, form: Search.SearchForm,
                        isDigit: char -> bool, isSpace: char -> bool) returns (reply: SearchReply)
      ensures Truthy(id) && idAsInteger.Some? && Owns(uid, idAsInteger.value) ==>
        reply == Answered(Redirect(ViewPageText(id.value), None))
      ensures Truthy(id) && !(idAsInteger.Some? && Owns(uid, idAsInteger.value)) ==>
        reply == Answered(Render(SearchPage, Some(NoAccess)))
      ensures !Truthy(id) ==> reply.RunQuery?
      ensures reply.RunQuery? ==>
        var filters := Search.Filters(isDigit, isSpace, form);
        && Search.UserIdParam in reply.params && reply.params[Search.UserIdParam] == Search.IdValue(uid)
        && (forall k :: k in filters && (Search.FilterParam(k) in reply.params <==> filters[k].Some?))
        && (forall k :: Search.FilterParam(k) in reply.params ==>
              reply.params[Search.FilterParam(k)] == Search.TextValue(Search.PatternFor(k, filters[k].value)))
        && |reply.clauses| == |Search.Active(filters, Search.FilterOrder)|
        && (forall i :: 0 <= i < |reply.clauses| ==>
              reply.clauses[i] == Search.ClauseFor(Search.Active(filters, Search.FilterOrder)[i]))
    {
      if Truthy(id) {
        if idAsInteger.Some? && Owns(uid, idAsInteger.value) {
          return Answered(Redirect(ViewPageText(id.value), None));
        }
        return Answered(Render(SearchPage, Some(NoAccess)));
      }
      var filters := Search.Filters(isDigit, isSpace, form);
      Search.FiltersComplete(isDigit, isSpace, form);
      var clauses, params := Search.BuildQuery(uid, filters);
      reply := RunQuery(clauses, params);
    }
  }

  /**
   * `/` GET for a logged-in user.  The welcome message is flashed on the
   * first view only; then the data sent follows the `sent` and `account`
   * flags: everything (doctor, clinic and the user's medication index), the
   * account rows only, or nothing.
   */
  method HomeGet(session: Session, accounts: AccountStore, store: PrescriptionStore) returns (page: HomePage)
    requires session.userId.Some? && session.userId.value in accounts.users
    modifies session`greet, session`sent, session`account
    ensures page.welcome == !old(session.greet) && session.greet
    ensures (session.sent, session.account) == NextFlags(old(session.sent), old(session.account))
    ensures var uid := session.userId.value;
      match HomeDelivery(old(session.sent), old(session.account))
      case Full =>
        && page.bundle.FullBundle?
        && page.bundle.doctor == Lookup(accounts.doctors, uid)
        && page.bundle.clinic == Lookup(accounts.clinics, uid)
        && page.bundle.medData.Keys == MedIndex.Names(RowsOf(store.rowOrder, store.medications, uid))
        && (forall n, f :: n in page.bundle.medData ==>
              && f in page.bundle.medData[n]
              && page.bundle.medData[n][f] ==
                   MedIndex.MostCommon(MedIndex.Observed(RowsOf(store.rowOrder, store.medications, uid), n, f)))
      case AccountOnly =>
        page.bundle == AccountBundle(Lookup(accounts.doctors, uid), Lookup(accounts.clinics, uid))
      case Nothing =>
        page.bundle == NoBundle
  {
    var uid := session.userId.value;
    var welcome := !session.greet;
    session.greet := true;
    if !session.sent {
      var rows := RowsOf(store.rowOrder, store.medications, uid);
      var medData := MedIndex.BuildMedIndex(rows);
      session.sent := true;
      page := HomePage(welcome, FullBundle(Lookup(accounts.doctors, uid), Lookup(accounts.clinics, uid), medData));
    } else if !session.account {
      session.account := true;
      page := HomePage(welcome, AccountBundle(Lookup(accounts.doctors, uid), Lookup(accounts.clinics, uid)));
    } else {
      page := HomePage(welcome, NoBundle);
    }
  }
}
