/** The key under which requests share a flight, and which requests it keeps apart. */
module FlightKeys {
  import Text

  function Bar(a: string, b: string): string {
    a + "|" + b
  }

  function FlightKey(rawURL: string, auth: bool, maxBytes: int, username: string): string {
    Bar(Bar(Bar(rawURL, Text.FormatBool(auth)), Text.Itoa(maxBytes)), if auth then username else "")
  }

  lemma BarAssociates(a: string, b: string, c: string)
    ensures Bar(a, Bar(b, c)) == Bar(Bar(a, b), c)
  {}

  lemma SplitLast(s: string) returns (x: string, d: string)
    requires '|' in s
    ensures s == Bar(x, d) && '|' !in d
  {
    if s[|s| - 1] == '|' {
      x, d := s[..|s| - 1], [];
    } else {
      var e;
      x, e := SplitLast(s[..|s| - 1]);
      d := e + [s[|s| - 1]];
    }
  }

  /** Two texts that end in a bar and a field without bars agree field by field. */
  lemma LastField(x: string, d: string, y: string, e: string)
    requires Bar(x, d) == Bar(y, e)
    requires '|' !in d && '|' !in e
    ensures x == y && d == e
  {
    var s := Bar(x, d);
    assert s[|x|] == '|' && s[|y|] == '|';
    assert forall i | |x| < i < |s| :: s[i] == d[i - |x| - 1] && s[i] in d;
    assert forall i | |y| < i < |s| :: s[i] == e[i - |y| - 1] && s[i] in e;
    assert |x| == |y|;
    assert x == s[..|x|] && y == s[..|y|] && d == s[|x| + 1..] && e == s[|y| + 1..];
  }

  lemma PrintedHasNoBar(n: nat)
    ensures '|' !in Text.Itoa(n) && Text.Itoa(n) != [] && Text.IsDigit(Text.Itoa(n)[0])
  {
    assert Text.AllDigits(Text.PrintNat(n));
  }

  lemma PrintedIsInjective(n: nat, m: nat)
    requires Text.Itoa(n) == Text.Itoa(m)
    ensures n == m
  {
    Text.ReadPrintNat(n);
    Text.ReadPrintNat(m);
  }

  /** With the same kind of authentication, only equal requests have equal keys. */
  lemma SameKindKeys(url1: string, n1: nat, url2: string, n2: nat, auth: bool, username: string)
    requires FlightKey(url1, auth, n1, username) == FlightKey(url2, auth, n2, username)
    ensures url1 == url2 && n1 == n2
  {
    var u := if auth then username else "";
    var b := Text.FormatBool(auth);
    var k1, k2 := Bar(Bar(url1, b), Text.Itoa(n1)), Bar(Bar(url2, b), Text.Itoa(n2));
    assert k1 == Bar(k1, u)[..|k1|] && k2 == Bar(k2, u)[..|k2|];
    PrintedHasNoBar(n1);
    PrintedHasNoBar(n2);
    LastField(Bar(url1, b), Text.Itoa(n1), Bar(url2, b), Text.Itoa(n2));
    PrintedIsInjective(n1, n2);
    LastField(url1, b, url2, b);
  }

  /** The user name reads like the end of an unauthenticated key. */
  ghost predicate MimicsAnonymousKey(username: string) {
    exists n: nat, before: string :: n > 0 && MimicsAs(username, n, before)
  }

  ghost predicate MimicsAs(username: string, n: nat, before: string) {
    || username == Bar(Bar("false", Text.Itoa(n)), "")
    || username == Bar(Bar(Bar(before, "false"), Text.Itoa(n)), "")
  }

  /** The text left of an unauthenticated key's last fields, against a key with a user name of few fields. */
  lemma NoShortMimic(url1: string, d1: string, url2: string, d2: string, u: string)
    requires '|' !in u && '|' !in d1 && '|' !in d2 && d2 != [] && Text.IsDigit(d2[0])
    ensures Bar(Bar(Bar(url1, "false"), d1), "") != Bar(Bar(Bar(url2, "true"), d2), u)
    ensures Bar(Bar(url1, "false"), d1) != Bar(Bar(Bar(url2, "true"), d2), u)
  {
    if Bar(Bar(Bar(url1, "false"), d1), "") == Bar(Bar(Bar(url2, "true"), d2), u) {
      LastField(Bar(Bar(url1, "false"), d1), "", Bar(Bar(url2, "true"), d2), u);
      LastField(Bar(url1, "false"), d1, Bar(url2, "true"), d2);
      LastField(url1, "false", url2, "true");
    }
    if Bar(Bar(url1, "false"), d1) == Bar(Bar(Bar(url2, "true"), d2), u) {
      LastField(Bar(url1, "false"), d1, Bar(Bar(url2, "true"), d2), u);
      LastField(url1, "false", Bar(url2, "true"), d2);
    }
  }

  lemma CrossKindCollision(url1: string, n1: nat, url2: string, n2: nat, username: string)
    requires n1 > 0 && n2 > 0
    requires FlightKey(url1, false, n1, username) == FlightKey(url2, true, n2, username)
    ensures MimicsAnonymousKey(username)
  {
    PrintedHasNoBar(n1);
    PrintedHasNoBar(n2);
    var d1, d2 := Text.Itoa(n1), Text.Itoa(n2);
    var head := Bar(Bar(url2, "true"), d2);
    if '|' !in username {
      NoShortMimic(url1, d1, url2, d2, username);
    } else {
      var x, z := SplitLast(username);
      BarAssociates(head, x, z);
      LastField(Bar(Bar(url1, "false"), d1), "", Bar(head, x), z);
      if '|' !in x {
        NoShortMimic(url1, d1, url2, d2, x);
      } else {
        var y, w := SplitLast(x);
        BarAssociates(head, y, w);
        LastField(Bar(url1, "false"), d1, Bar(head, y), w);
        FalseField(url1, head, y);
        if y == "false" {
          assert MimicsAs(username, n1, "");
        } else {
          var before :| y == Bar(before, "false");
          assert MimicsAs(username, n1, before);
        }
      }
    }
  }

  lemma FalseField(url: string, head: string, y: string)
    requires Bar(url, "false") == Bar(head, y)
    ensures y == "false" || exists before :: y == Bar(before, "false")
  {
    if '|' !in y {
      LastField(url, "false", head, y);
    } else {
      var before, f := SplitLast(y);
      BarAssociates(head, before, f);
      LastField(url, "false", Bar(head, before), f);
    }
  }

  lemma MimicCollides(username: string) returns (url1: string, n1: nat, url2: string, n2: nat)
    requires MimicsAnonymousKey(username)
    ensures n1 > 0 && n2 > 0
    ensures FlightKey(url1, false, n1, username) == FlightKey(url2, true, n2, username)
  {
    var n: nat, before: string :| n > 0 && MimicsAs(username, n, before);
    n1, n2, url2 := n, 1, "u";
    var head, d := Bar(Bar(url2, "true"), Text.Itoa(1)), Text.Itoa(n);
    if username == Bar(Bar("false", d), "") {
      url1 := head;
      BarAssociates(head, "false", d);
      BarAssociates(head, Bar("false", d), "");
    } else {
      url1 := Bar(head, before);
      BarAssociates(head, before, "false");
      BarAssociates(head, Bar(before, "false"), d);
      BarAssociates(head, Bar(Bar(before, "false"), d), "");
    }
  }

  ghost predicate KeysSeparateRequests(username: string) {
    forall url1, auth1, n1: nat, url2, auth2, n2: nat | n1 > 0 && n2 > 0 &&
      FlightKey(url1, auth1, n1, username) == FlightKey(url2, auth2, n2, username) ::
      url1 == url2 && auth1 == auth2 && n1 == n2
  }

  /**
   Requests that Get accepts share a flight only when they agree in URL, authentication
   and byte limit, exactly when the configured user name does not itself end like the
   key of an unauthenticated request.
   */
  lemma KeySeparation(username: string)
    ensures KeysSeparateRequests(username) <==> !MimicsAnonymousKey(username)
  {
    if MimicsAnonymousKey(username) {
      var url1, n1, url2, n2 := MimicCollides(username);
    } else {
      forall url1, auth1, n1: nat, url2, auth2, n2: nat | n1 > 0 && n2 > 0 &&
        FlightKey(url1, auth1, n1, username) == FlightKey(url2, auth2, n2, username)
        ensures url1 == url2 && auth1 == auth2 && n1 == n2
      {
        if auth1 == auth2 {
          SameKindKeys(url1, n1, url2, n2, auth1, username);
        } else if auth2 {
          CrossKindCollision(url1, n1, url2, n2, username);
        } else {
          CrossKindCollision(url2, n2, url1, n1, username);
        }
      }
    }
  }

  /** The shortest user name that mimics an anonymous key, and two requests that then share a flight. */
  lemma BarredUserName()
    ensures FlightKey("u|true|1", false, 1, "false|1|") == FlightKey("u", true, 1, "false|1|")
  {
    assert Text.PrintNat(1) == "1";
  }
}
