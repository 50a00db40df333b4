/**
 * The application shell (App.jsx): the consultants' password file, the login by password and the
 * user name kept in `localStorage` across visits.
 */
module App {
  import opened Wrappers
  import opened Text
  import opened Seqs
  import opened Storage

  // ---------------------------------------------------------------------------------------------
  // The password file

  /** One consultant of the password file; `pass` is absent on a line without a `;`. */
  datatype Credential = Credential(name: string, pass: Option<string>)

  /** `const [name, pass] = line.split(';')`, both trimmed; fields after the second are ignored. */
  function ParseLine(line: string): Credential {
    var fields := Split(line, ';');
    Credential(Trim(fields[0]), if |fields| >= 2 then Some(Trim(fields[1])) else None)
  }

  predicate NonBlank(line: string) {
    Trim(line) != ""
  }

  /** The records of the file's lines: blank lines are dropped, then the header, then each line is parsed. */
  function Records(lines: seq<string>): (r: seq<Credential>)
    ensures var kept := Filter(lines, NonBlank); |r| == if kept == [] then 0 else |kept| - 1
  {
    var kept := Filter(lines, NonBlank);
    if kept == [] then [] else Map(kept[1..], ParseLine)
  }

  /** The consultants of the password file's text. */
  function ParsePasswords(text: string): seq<Credential> {
    Records(Split(text, '\n'))
  }

  /** The name is the trimmed text before the first `;`, and the password is absent exactly when there is none. */
  lemma ParseLineName(line: string)
    ensures var c := ParseLine(line); var before := Split(line, ';')[0];
      && c.name == Trim(before) && |before| <= |line| && line[..|before|] == before && ';' !in before
      && (c.pass.None? <==> ';' !in line)
      && (c.pass.None? ==> before == line)
  {
    SplitHead(line, ';');
    SplitFields(line, ';');
  }

  /** A line whose first two fields are known parses to them, trimmed. */
  lemma ParseTwo(line: string, name: string, pass: string)
    requires var fields := Split(line, ';'); |fields| >= 2 && fields[0] == name && fields[1] == pass
    ensures ParseLine(line) == Credential(Trim(name), Some(Trim(pass)))
  {
  }

  lemma ParseShort(name: string, pass: string)
    requires ';' !in name && ';' !in pass
    ensures ParseLine(name + ";" + pass) == Credential(Trim(name), Some(Trim(pass)))
  {
    var line := name + ";" + pass;
    assert Split(line, ';') == [name, pass] by {
      SplitNoSep(name, ';');
      SplitNoSep(pass, ';');
      assert line == name + [';'] + pass;
      SplitConcat(name, pass, ';');
    }
    ParseTwo(line, name, pass);
  }

  lemma ParseLong(name: string, pass: string, rest: string)
    requires ';' !in name && ';' !in pass
    ensures ParseLine(name + ";" + pass + ";" + rest) == Credential(Trim(name), Some(Trim(pass)))
  {
    var line := name + ";" + pass + ";" + rest;
    assert Split(line, ';') == [name] + ([pass] + Split(rest, ';')) by {
      var tail := pass + [';'] + rest;
      assert line == name + [';'] + tail;
      SplitNoSep(name, ';');
      SplitNoSep(pass, ';');
      SplitConcat(pass, rest, ';');
      SplitConcat(name, tail, ';');
    }
    ParseTwo(line, name, pass);
  }

  /** A line written as name, `;` and password, with or without further fields, parses back to that name and password. */
  lemma ParseLineFields(name: string, pass: string, rest: string)
    requires ';' !in name && ';' !in pass
    ensures ParseLine(name + ";" + pass) == Credential(Trim(name), Some(Trim(pass)))
    ensures ParseLine(name + ";" + pass + ";" + rest) == Credential(Trim(name), Some(Trim(pass)))
  {
    ParseShort(name, pass);
    ParseLong(name, pass, rest);
  }

  /**
   * A file made of a header and of non-blank lines yields one record per line after the header,
   * in order.
   */
  lemma RecordsOfFile(header: string, lines: seq<string>)
    requires NonBlank(header)
    requires forall i :: 0 <= i < |lines| ==> NonBlank(lines[i]) && '\n' !in lines[i]
    requires '\n' !in header
    ensures ParsePasswords(Join([header] + lines, '\n')) == Map(lines, ParseLine)
  {
    var all := [header] + lines;
    assert forall i :: 0 <= i < |all| ==> '\n' !in all[i] by {
      forall i | 0 <= i < |all| ensures '\n' !in all[i] {
        if i > 0 { assert all[i] == lines[i - 1]; }
      }
    }
    SplitJoin(all, '\n');
    assert forall i :: 0 <= i < |all| ==> NonBlank(all[i]) by {
      forall i | 0 <= i < |all| ensures NonBlank(all[i]) {
        if i > 0 { assert all[i] == lines[i - 1]; }
      }
    }
    FilterAll(all, NonBlank);
    assert all[1..] == lines;
  }

  /** A blank line anywhere in the file changes no record. */
  lemma BlankLineIgnored(before: seq<string>, blank: string, after: seq<string>)
    requires !NonBlank(blank)
    ensures Records(before + [blank] + after) == Records(before + after)
  {
    FilterConcat(before + [blank], after, NonBlank);
    FilterConcat(before, [blank], NonBlank);
    FilterConcat(before, after, NonBlank);
    assert Filter([blank], NonBlank) == [] by {
      assert [blank][..0] == [];
    }
    var a := Filter(before, NonBlank);
    assert a + [] == a;
  }

  // ---------------------------------------------------------------------------------------------
  // Login

  /** `consultants.find(c => c.pass === cleanPass)`: the first record whose password is exactly `pass`. */
  function FindByPass(cs: seq<Credential>, pass: string): (r: Option<Credential>)
    ensures r.Some? ==> r.value in cs && r.value.pass == Some(pass)
  {
    if cs == [] then None
    else if cs[0].pass == Some(pass) then Some(cs[0])
    else FindByPass(cs[1..], pass)
  }

  /** The record found is the first one with that password, and nothing is found only when no record has it. */
  lemma {:induction false} FindFirst(cs: seq<Credential>, pass: string) returns (i: nat)
    ensures FindByPass(cs, pass).Some? ==>
      i < |cs| && cs[i] == FindByPass(cs, pass).value && forall j :: 0 <= j < i ==> cs[j].pass != Some(pass)
    ensures FindByPass(cs, pass).None? ==> forall j :: 0 <= j < |cs| ==> cs[j].pass != Some(pass)
  {
    if cs == [] {
      i := 0;
    } else if cs[0].pass == Some(pass) {
      i := 0;
    } else {
      var k := FindFirst(cs[1..], pass);
      i := k + 1;
      assert forall j :: 1 <= j < |cs| ==> cs[j] == cs[1..][j - 1];
    }
  }

  // ---------------------------------------------------------------------------------------------
  // The persisted user

  const UserKey := "visitAppUser"

  /** A user is logged in when the name is neither `null` nor empty (`if (user)`). */
  predicate LoggedIn(user: Option<string>) {
    user.Some? && user.value != ""
  }

  /** `localStorage.getItem('visitAppUser')`. */
  function Restore(st: Store): (r: Option<string>)
    ensures r.Some? <==> UserKey in st
  {
    if UserKey in st then Some(st[UserKey]) else None
  }

  /** The storage effect of a user change: the name is stored when logged in and removed otherwise. */
  function Persist(st: Store, user: Option<string>): (r: Store)
    ensures forall k :: k != UserKey ==> (k in r <==> k in st) && (k in r ==> r[k] == st[k])
  {
    if LoggedIn(user) then st[UserKey := user.value] else st - {UserKey}
  }

  /** The next visit starts with the user that was persisted, or logged out when none was. */
  lemma PersistRestore(st: Store, user: Option<string>)
    ensures Restore(Persist(st, user)) == if LoggedIn(user) then user else None
    ensures LoggedIn(Restore(Persist(st, user))) <==> LoggedIn(user)
  {
  }

  /** The application state: the user, the consultants loaded and the browser's storage. */
  class Session {
    var user: Option<string>
    var consultants: seq<Credential>
    var storage: Store

    /** The first render: the user comes from storage and no consultant is loaded yet. */
    constructor(st: Store)
      ensures user == Restore(st) && consultants == [] && storage == st
    {
      user := Restore(st);
      consultants := [];
      storage := st;
    }

    /** The login screen is shown whenever no user is logged in. */
    function ShowsLogin(): (r: bool)
      reads this
      ensures r <==> !LoggedIn(user)
    {
      !(user.Some? && user.value != "")
    }

    /** The fetched password file replaces the consultant list. */
    method LoadPasswords(text: string)
      modifies this`consultants
      ensures consultants == ParsePasswords(text)
    {
      consultants := ParsePasswords(text);
    }

    /**
     * `handleLogin`: the trimmed input selects the first consultant with that password, who
     * becomes the user; on no match the user stays and the alert is raised.
     */
    method HandleLogin(inputPass: string) returns (alerted: bool)
      modifies this`user
      ensures var found := FindByPass(consultants, Trim(inputPass));
        && (found.Some? ==> user == Some(found.value.name) && !alerted)
        && (found.None? ==> user == old(user) && alerted)
    {
      var found := FindByPass(consultants, Trim(inputPass));
      if found.Some? {
        user := Some(found.value.name);
        alerted := false;
      } else {
        alerted := true;
      }
    }

    /** `onLogout`. */
    method Logout()
      modifies this`user
      ensures user == None && ShowsLogin()
    {
      user := None;
    }

    /** The effect that runs after each change of the user. */
    method PersistUser()
      modifies this`storage
      ensures storage == Persist(old(storage), user)
      ensures Restore(storage) == if LoggedIn(user) then user else None
    {
      storage := Persist(storage, user);
      PersistRestore(old(storage), user);
    }
  }
}
