/** `_resolve_servers` in update-lb.py: the server names an operator typed are
    matched against the servers the balancers report. A name that is a server
    is taken as it is; otherwise it must be a substring of exactly one server.
    An unknown or ambiguous name stops the program (exit status 1), which is
    `Failure` here. No names at all select every server. */
module NameResolver {
  import opened Wrappers
  import opened Text

  datatype ResolveError = Invalid(token: string) | Ambiguous(token: string)

  /** `[x for x in available if name in x]`, as a set: the servers in whose
      name the token occurs at some offset. */
  function Candidates(available: set<string>, token: string): (c: set<string>)
    ensures c <= available
    ensures forall x :: x in available ==> (x in c <==> exists k :: OccursAt(x, token, k))
  {
    ContainsOnAll(available, token);
    set x | x in available && Contains(x, token)
  }

  lemma ContainsOnAll(available: set<string>, token: string)
    ensures forall x :: x in available ==> (Contains(x, token) <==> exists k :: OccursAt(x, token, k))
  {
    forall x | x in available
      ensures Contains(x, token) <==> exists k :: OccursAt(x, token, k)
    {
      ContainsMeansOccurs(x, token);
    }
  }

  lemma SingletonUnique(c: set<string>)
    requires |c| == 1
    ensures forall a, b :: a in c && b in c ==> a == b
  {
    var x :| x in c;
    var rest := c - {x};
    assert c == rest + {x};
    assert rest == {};
    assert c == {x};
  }

  /** How one token is resolved. */
  function ResolveToken(available: set<string>, token: string): (r: Result<string, ResolveError>)
    ensures token in available ==> r == Success(token)
    ensures r.Success? ==> r.value in available
    ensures r.Success? && token !in available ==> Candidates(available, token) == {r.value}
    ensures r.Success? <==> token in available || |Candidates(available, token)| == 1
    ensures r == Failure(Invalid(token)) <==> token !in available && Candidates(available, token) == {}
    ensures r == Failure(Ambiguous(token)) <==> token !in available && |Candidates(available, token)| >= 2
    ensures r.Failure? ==> r == Failure(Invalid(token)) || r == Failure(Ambiguous(token))
  {
    if token in available then Success(token)
    else
      var c := Candidates(available, token);
      if |c| == 1 then
        SingletonUnique(c);
        var x :| x in c;
        assert c == {x};
        Success(x)
      else if |c| == 0 then Failure(Invalid(token))
      else Failure(Ambiguous(token))
  }

  /** The loop over the requested names, adding each resolution to `acc` and
      stopping at the first name that does not resolve. */
  function ResolveAll(available: set<string>, tokens: seq<string>, acc: set<string>): Result<set<string>, ResolveError>
    decreases |tokens|
  {
    if |tokens| == 0 then Success(acc)
    else
      match ResolveToken(available, tokens[0])
      case Failure(e) => Failure(e)
      case Success(name) => ResolveAll(available, tokens[1..], acc + {name})
  }

  /** What `_resolve_servers` returns: the sorted names and whether every
      server was selected because none was named. */
  function Resolve(available: set<string>, requested: seq<string>): Result<(seq<string>, bool), ResolveError>
  {
    if |requested| == 0 then Success((SortedElements(available), true))
    else
      match ResolveAll(available, requested, {})
      case Failure(e) => Failure(e)
      case Success(names) => Success((SortedElements(names), false))
  }

  /** The code: a loop over the requested names that adds to the set `rv`. */
  method ResolveServers(available: set<string>, requested: seq<string>)
      returns (res: Result<(seq<string>, bool), ResolveError>)
    ensures res == Resolve(available, requested)
  {
    if |requested| == 0 {
      return Success((SortedElements(available), true));
    }
    var rv: set<string> := {};
    var i := 0;
    while i < |requested|
      invariant 0 <= i <= |requested|
      invariant ResolveAll(available, requested, {}) == ResolveAll(available, requested[i..], rv)
    {
      var name := requested[i];
      assert requested[i..][1..] == requested[i + 1..];
      if name in available {
        rv := rv + {name};
      } else {
        var candidates := set x | x in available && Contains(x, name);
        assert candidates == Candidates(available, name);
        if |candidates| == 1 {
          var c :| c in candidates;
          assert candidates == {c} by {
            SingletonUnique(candidates);
          }
          rv := rv + {c};
        } else if |candidates| == 0 {
          return Failure(Invalid(name));
        } else {
          return Failure(Ambiguous(name));
        }
      }
      i := i + 1;
    }
    return Success((SortedElements(rv), false));
  }

  // ---------------------------------------------------------------------------
  // Lemmas.

  /** A successful resolution keeps what was already chosen, adds the
      resolution of every token, and nothing else. */
  lemma {:induction false} ResolveAllExactly(available: set<string>, tokens: seq<string>, acc: set<string>, x: string)
    requires ResolveAll(available, tokens, acc).Success?
    ensures forall i :: 0 <= i < |tokens| ==> ResolveToken(available, tokens[i]).Success?
    ensures x in ResolveAll(available, tokens, acc).value <==>
            x in acc || exists i :: 0 <= i < |tokens| && ResolveToken(available, tokens[i]) == Success(x)
    decreases |tokens|
  {
    if |tokens| > 0 {
      var name := ResolveToken(available, tokens[0]).value;
      ResolveAllExactly(available, tokens[1..], acc + {name}, x);
      forall i | 0 <= i < |tokens|
        ensures ResolveToken(available, tokens[i]).Success?
      {
        if i > 0 {
          assert tokens[i] == tokens[1..][i - 1];
        }
      }
      if exists i :: 0 <= i < |tokens| && ResolveToken(available, tokens[i]) == Success(x) {
        var i :| 0 <= i < |tokens| && ResolveToken(available, tokens[i]) == Success(x);
        if i > 0 {
          assert tokens[i] == tokens[1..][i - 1];
        }
      }
    }
  }

  /** Resolution fails exactly at the first token that does not resolve. */
  lemma {:induction false} ResolveAllFirstError(available: set<string>, tokens: seq<string>, acc: set<string>, e: ResolveError)
    ensures ResolveAll(available, tokens, acc) == Failure(e) <==>
            exists i :: 0 <= i < |tokens| && ResolveToken(available, tokens[i]) == Failure(e) &&
                        forall j :: 0 <= j < i ==> ResolveToken(available, tokens[j]).Success?
    decreases |tokens|
  {
    if |tokens| > 0 {
      ResolveAllFirstError(available, tokens[1..], acc + (if ResolveToken(available, tokens[0]).Success? then {ResolveToken(available, tokens[0]).value} else {}), e);
      if exists i :: 0 <= i < |tokens| && ResolveToken(available, tokens[i]) == Failure(e) &&
                     forall j :: 0 <= j < i ==> ResolveToken(available, tokens[j]).Success? {
        var i :| 0 <= i < |tokens| && ResolveToken(available, tokens[i]) == Failure(e) &&
                 forall j :: 0 <= j < i ==> ResolveToken(available, tokens[j]).Success?;
        if i > 0 {
          assert ResolveToken(available, tokens[0]).Success?;
          assert tokens[1..][i - 1] == tokens[i];
          forall j | 0 <= j < i - 1
            ensures ResolveToken(available, tokens[1..][j]).Success?
          {
            assert tokens[1..][j] == tokens[j + 1];
          }
        }
      }
      if ResolveAll(available, tokens, acc) == Failure(e) && ResolveToken(available, tokens[0]).Success? {
        var i :| 0 <= i < |tokens[1..]| && ResolveToken(available, tokens[1..][i]) == Failure(e) &&
                 forall j :: 0 <= j < i ==> ResolveToken(available, tokens[1..][j]).Success?;
        assert tokens[1..][i] == tokens[i + 1];
        forall j | 0 <= j < i + 1
          ensures ResolveToken(available, tokens[j]).Success?
        {
          if j > 0 {
            assert tokens[1..][j - 1] == tokens[j];
          }
        }
      }
    }
  }

  /** The names returned are a sorted, duplicate-free
      subset of the available servers, each one the resolution of a requested
      name, and every requested name is among them once resolved. The flag is
      false whenever names were given, even if they cover every server. */
  lemma ResolveNamed(available: set<string>, requested: seq<string>)
    requires |requested| > 0
    requires Resolve(available, requested).Success?
    ensures var (names, all) := Resolve(available, requested).value;
      && !all
      && StrictlyIncreasing(names)
      && (forall x :: x in names ==> x in available)
      && (forall x :: x in names <==> exists i :: 0 <= i < |requested| && ResolveToken(available, requested[i]) == Success(x))
      && (forall i :: 0 <= i < |requested| ==>
            ResolveToken(available, requested[i]).Success? && ResolveToken(available, requested[i]).value in names)
  {
    var (names, all) := Resolve(available, requested).value;
    var set_ := ResolveAll(available, requested, {}).value;
    assert names == SortedElements(set_);
    forall x
      ensures x in names <==> exists i :: 0 <= i < |requested| && ResolveToken(available, requested[i]) == Success(x)
    {
      ResolveAllExactly(available, requested, {}, x);
    }
    forall i | 0 <= i < |requested|
      ensures ResolveToken(available, requested[i]).Success? && ResolveToken(available, requested[i]).value in names
    {
      ResolveAllExactly(available, requested, {}, requested[0]);
      assert ResolveToken(available, requested[i]) == Success(ResolveToken(available, requested[i]).value);
    }
  }

  /** No names select every server, sorted, flag true. */
  lemma ResolveEmpty(available: set<string>)
    ensures Resolve(available, []).Success?
    ensures Resolve(available, []).value.1
    ensures var names := Resolve(available, []).value.0;
      StrictlyIncreasing(names) && |names| == |available| && forall x :: x in names <==> x in available
  {
  }

  /** An exact name wins even when it is also part of other names. */
  lemma ExactBeatsSubstring()
    ensures ResolveToken({"web1", "web10"}, "web1") == Success("web1")
  {
  }

  /** A name that is part of two servers is ambiguous. */
  lemma AmbiguousExample()
    ensures ResolveToken({"web1", "web2"}, "web") == Failure(Ambiguous("web"))
  {
    var c := Candidates({"web1", "web2"}, "web");
    assert StartsWith("web1", "web") && StartsWith("web2", "web");
    assert Contains("web1", "web") && Contains("web2", "web");
    assert {"web1", "web2"} <= c;
    assert "web1" != "web2";
    assert |{"web1", "web2"}| == 2;
  }

  /** Naming every server leaves the all-servers flag false. */
  lemma NamingAllIsNotAll(available: set<string>, requested: seq<string>)
    requires |requested| > 0
    requires forall x :: x in available ==> x in requested
    requires forall i :: 0 <= i < |requested| ==> requested[i] in available
    ensures Resolve(available, requested).Success?
    ensures Resolve(available, requested).value == (SortedElements(available), false)
  {
    ResolveAllSucceeds(available, requested, {});
    var s := ResolveAll(available, requested, {}).value;
    forall x
      ensures x in s <==> x in available
    {
      ResolveAllExactly(available, requested, {}, x);
      if x in available {
        var i :| 0 <= i < |requested| && requested[i] == x;
        assert ResolveToken(available, requested[i]) == Success(x);
      }
    }
    assert s == available;
  }

  lemma {:induction false} ResolveAllSucceeds(available: set<string>, tokens: seq<string>, acc: set<string>)
    requires forall i :: 0 <= i < |tokens| ==> tokens[i] in available
    ensures ResolveAll(available, tokens, acc).Success?
    decreases |tokens|
  {
    if |tokens| > 0 {
      assert forall i :: 0 <= i < |tokens[1..]| ==> tokens[1..][i] == tokens[i + 1];
      ResolveAllSucceeds(available, tokens[1..], acc + {tokens[0]});
    }
  }
}
