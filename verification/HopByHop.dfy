/** Header fields that survive a proxy hop (section 7.6.1 of RFC 9110). */
module HopByHop {
  import opened Strings

  datatype Field = Field(name: string, value: string)

  /** Field names are compared without regard to case. */
  predicate Named(f: Field, lowered: string) { Lower(f.name) == lowered }

  predicate SameName(f: Field, g: Field) { Lower(f.name) == Lower(g.name) }

  // ----- the tokens nominated by Connection fields

  /** The non-empty, trimmed and lowered comma elements of every Connection field. */
  function Tokens(fields: seq<Field>): set<string> {
    set f, e | f in fields && Named(f, "connection") && e in Split(f.value, ',') && TrimToken(e) != "" :: TrimToken(e)
  }

  /** The token of one element: none if only blanks are left of it. */
  function TokenOf(element: string): set<string> {
    var token := TrimToken(element);
    if token != "" then {token} else {}
  }

  /** What is collected from all the elements of a list. */
  function Collected(elements: seq<string>, of: string -> set<string>): set<string> {
    if elements == [] then {} else of(elements[0]) + Collected(elements[1..], of)
  }

  lemma {:induction false} CollectedMeans(elements: seq<string>, of: string -> set<string>, t: string)
    ensures t in Collected(elements, of) <==> exists e :: e in elements && t in of(e)
  {
    if elements != [] {
      CollectedMeans(elements[1..], of, t);
    }
  }

  /** The tokens of one field value. */
  function ValueTokens(value: string): set<string> { Collected(Split(value, ','), TokenOf) }

  lemma ValueTokensMeans(value: string, t: string)
    ensures t in ValueTokens(value) <==> exists e :: e in Split(value, ',') && TrimToken(e) != "" && TrimToken(e) == t
  {
    CollectedMeans(Split(value, ','), TokenOf, t);
  }

  lemma SplitHead(s: string, c: char, n: nat)
    requires n == IndexOf(s, c)
    ensures Split(s, c) == [s[..n]] + (if n == |s| then [] else Split(s[n + 1..], c))
  {
    assert s[..|s|] == s;
  }

  lemma CollectedHead(e: string, elements: seq<string>, of: string -> set<string>)
    ensures Collected([e] + elements, of) == of(e) + Collected(elements, of)
  {
    assert ([e] + elements)[1..] == elements;
  }

  /** One turn of the scan: the first element, and the rest after its comma if there is one. */
  lemma ScanStep(value: string, begin: nat, n: nat, of: string -> set<string>)
    requires begin <= |value| && n == IndexOf(value[begin..], ',')
    ensures Collected(Split(value[begin..], ','), of)
         == of(value[begin..][..n]) + (if begin + n == |value| then {} else Collected(Split(value[begin + n + 1..], ','), of))
  {
    var s := value[begin..];
    SplitHead(s, ',', n);
    CollectedHead(s[..n], if n == |s| then [] else Split(s[n + 1..], ','), of);
    if n < |s| {
      assert s[n + 1..] == value[begin + n + 1..];
    }
  }

  /** The inner scan of `connection_tokens` over one field value, for any way of reading an element. */
  method ScanElements(value: string, of: string -> set<string>) returns (tokens: set<string>)
    ensures tokens == Collected(Split(value, ','), of)
  {
    tokens := {};
    var begin := 0;
    assert value[0..] == value;
    while begin <= |value|
      invariant begin <= |value|
      invariant tokens + Collected(Split(value[begin..], ','), of) == Collected(Split(value, ','), of)
      decreases |value| - begin
    {
      var length := IndexOf(value[begin..], ',');
      ScanStep(value, begin, length, of);
      tokens := tokens + of(value[begin..][..length]);
      if begin + length == |value| {
        break;
      }
      begin := begin + length + 1;
    }
  }

  /** The tokens of one field value, as the source scans them. */
  method ScanValue(value: string) returns (tokens: set<string>)
    ensures tokens == ValueTokens(value)
  {
    tokens := ScanElements(value, TokenOf);
  }

  /** `connection_tokens`: the scanned set is exactly the nominated tokens of all Connection fields. */
  method ConnectionTokens(fields: seq<Field>) returns (tokens: set<string>)
    ensures tokens == Tokens(fields)
  {
    tokens := {};
    for k := 0 to |fields|
      invariant tokens == Tokens(fields[..k])
    {
      assert fields[..k + 1] == fields[..k] + [fields[k]];
      TokensGrow(fields[..k], fields[k]);
      if Lower(fields[k].name) == "connection" {
        var more := ScanValue(fields[k].value);
        tokens := tokens + more;
      }
    }
    assert fields[..|fields|] == fields;
  }

  lemma TokensGrow(fields: seq<Field>, f: Field)
    ensures Tokens(fields + [f]) == Tokens(fields) + (if Named(f, "connection") then ValueTokens(f.value) else {})
  {
    forall t ensures t in Tokens(fields + [f]) <==> t in Tokens(fields) || (Named(f, "connection") && t in ValueTokens(f.value)) {
      ValueTokensMeans(f.value, t);
    }
  }

  /** Every token is lower case, so it can be compared with lowered names. */
  lemma TokensAreLowered(fields: seq<Field>, t: string)
    requires t in Tokens(fields)
    ensures Lower(t) == t && t != ""
  {
    var f, e :| f in fields && Named(f, "connection") && e in Split(f.value, ',') && TrimToken(e) != "" && TrimToken(e) == t;
    LowerIsIdempotent(e[FirstNonBlank(e)..EndNonBlank(e)]);
  }

  // ----- which fields are forwarded

  const FIXED: set<string> := {
    "connection", "keep-alive", "te", "trailer", "transfer-encoding", "upgrade",
    "proxy-connection", "proxy-authenticate", "proxy-authorization"
  }

  predicate IsHopByHop(name: string, tokens: set<string>) {
    Lower(name) in FIXED || Lower(name) in tokens
  }

  predicate IsForwardingMetadata(name: string) { "x-forwarded-" <= Lower(name) }

  /** Fields of a request that are dropped because they are rebuilt or never forwarded. */
  predicate DroppedFromRequest(f: Field, stripAuthorization: bool) {
    || (stripAuthorization && Named(f, "authorization"))
    || IsForwardingMetadata(f.name)
    || Named(f, "host") || Named(f, "content-length") || Named(f, "expect")
  }

  predicate DroppedFromResponse(f: Field) { Named(f, "server") || Named(f, "content-length") }

  /** The fields satisfying `keep`, in order. */
  function Filter(fields: seq<Field>, keep: Field -> bool): seq<Field> {
    if fields == [] then []
    else Filter(fields[..|fields| - 1], keep) + (if keep(fields[|fields| - 1]) then [fields[|fields| - 1]] else [])
  }

  /** `Filter` written out: positions of the kept fields, each exactly once and in increasing order. */
  lemma {:induction false} FilterIsTheKeptSubsequence(fields: seq<Field>, keep: Field -> bool) returns (at: seq<nat>)
    ensures |at| == |Filter(fields, keep)|
    ensures forall i :: 0 <= i < |at| ==> at[i] < |fields| && keep(fields[at[i]]) && Filter(fields, keep)[i] == fields[at[i]]
    ensures forall i, j :: 0 <= i < j < |at| ==> at[i] < at[j]
    ensures forall k :: 0 <= k < |fields| && keep(fields[k]) ==> k in at
  {
    if fields == [] {
      at := [];
    } else {
      var last := |fields| - 1;
      var rest := fields[..last];
      var before := FilterIsTheKeptSubsequence(rest, keep);
      at := before + (if keep(fields[last]) then [last] else []);
      forall k | 0 <= k < |fields| && keep(fields[k]) ensures k in at {
        if k < last {
          assert rest[k] == fields[k] && k in before;
        }
      }
    }
  }

  // ----- building the outgoing message

  /** Position just after the last field named like `f`, or the end if there is none: where the container inserts. */
  function InsertPosition(fields: seq<Field>, f: Field): (n: nat)
    ensures n <= |fields|
    ensures n < |fields| ==> n > 0 && SameName(fields[n - 1], f)
  {
    if fields == [] then 0
    else if SameName(fields[|fields| - 1], f) then |fields|
    else
      var n := InsertPosition(fields[..|fields| - 1], f);
      if n == |fields| - 1 && !(n > 0 && SameName(fields[n - 1], f)) then |fields| else n
  }

  /** The field container keeps equally named fields together. */
  function Insert(fields: seq<Field>, f: Field): seq<Field> {
    var n := InsertPosition(fields, f);
    fields[..n] + [f] + fields[n..]
  }

  predicate Grouped(fields: seq<Field>) {
    forall i, j, k :: 0 <= i <= k <= j < |fields| && SameName(fields[i], fields[j]) ==> SameName(fields[i], fields[k])
  }

  /** If the last field has the inserted name whenever any field has, inserting appends. */
  lemma InsertAppends(fields: seq<Field>, f: Field)
    requires forall i :: 0 <= i < |fields| && SameName(fields[i], f) ==> SameName(fields[|fields| - 1], f)
    ensures Insert(fields, f) == fields + [f]
  {
    if InsertPosition(fields, f) < |fields| {
      assert SameName(fields[InsertPosition(fields, f) - 1], f);
    }
  }

  /** A decision by name alone. */
  ghost predicate ByName(keep: Field -> bool) {
    forall f, g :: SameName(f, g) ==> keep(f) == keep(g)
  }

  lemma {:induction false} LastKeptSharesTheName(fields: seq<Field>, keep: Field -> bool, k: nat, i: nat)
    requires Grouped(fields) && ByName(keep) && k < |fields| && keep(fields[k])
    requires var out := Filter(fields[..k], keep); i < |out| && SameName(out[i], fields[k])
    ensures var out := Filter(fields[..k], keep); SameName(out[|out| - 1], fields[k])
  {
    var out := Filter(fields[..k], keep);
    var at := FilterIsTheKeptSubsequence(fields[..k], keep);
    var p, q := at[i], at[|out| - 1];
    assert i < |out| - 1 ==> at[i] < at[|out| - 1];
    assert SameName(fields[p], fields[k]) && p <= q <= k;
    assert SameName(fields[p], fields[q]);
  }

  /** The copying loop of both header builders: for a parsed message it yields exactly the kept fields, in order and unchanged. */
  method CopyFields(fields: seq<Field>, keep: Field -> bool) returns (out: seq<Field>)
    requires Grouped(fields) && ByName(keep)
    ensures out == Filter(fields, keep)
  {
    out := [];
    for k := 0 to |fields|
      invariant out == Filter(fields[..k], keep)
    {
      assert fields[..k + 1][..k] == fields[..k];
      if keep(fields[k]) {
        forall i | 0 <= i < |out| && SameName(out[i], fields[k])
          ensures SameName(out[|out| - 1], fields[k])
        {
          LastKeptSharesTheName(fields, keep, k, i);
        }
        InsertAppends(out, fields[k]);
        out := Insert(out, fields[k]);
      }
    }
    assert fields[..|fields|] == fields;
  }

  function RequestKeeps(tokens: set<string>, stripAuthorization: bool): Field -> bool {
    (f: Field) => !IsHopByHop(f.name, tokens) && !DroppedFromRequest(f, stripAuthorization)
  }

  function ResponseKeeps(tokens: set<string>): Field -> bool {
    (f: Field) => !IsHopByHop(f.name, tokens) && !DroppedFromResponse(f)
  }

  // ----- the fields a header builder sets itself

  /** Setting a field replaces every field of its name and appends it. */
  function WithField(fields: seq<Field>, f: Field): seq<Field> {
    Filter(fields, g => !SameName(g, f)) + [f]
  }

  predicate Lacks(fields: seq<Field>, lowered: string) {
    forall f :: f in fields ==> Lower(f.name) != lowered
  }

  lemma {:induction false} KeepingAllIsIdentity(fields: seq<Field>, keep: Field -> bool)
    requires forall f :: f in fields ==> keep(f)
    ensures Filter(fields, keep) == fields
  {
    if fields != [] {
      KeepingAllIsIdentity(fields[..|fields| - 1], keep);
      assert fields == fields[..|fields| - 1] + [fields[|fields| - 1]];
    }
  }

  lemma SettingAppends(fields: seq<Field>, f: Field, lowered: string)
    requires Lower(f.name) == lowered && Lacks(fields, lowered)
    ensures WithField(fields, f) == fields + [f]
  {
    KeepingAllIsIdentity(fields, g => !SameName(g, f));
  }

  /** Persistence is the default of HTTP/1.1 and closing that of HTTP/1.0; only the opposite needs a Connection field. */
  function Persistence(http11: bool, keepAlive: bool): seq<Field> {
    if http11 == keepAlive then [] else [Field("Connection", if http11 then "close" else "keep-alive")]
  }

  method SetPersistence(fields: seq<Field>, http11: bool, keepAlive: bool) returns (out: seq<Field>)
    requires Lacks(fields, "connection")
    ensures out == fields + Persistence(http11, keepAlive)
    ensures forall other :: other != "connection" && Lacks(fields, other) ==> Lacks(out, other)
  {
    out := fields;
    if http11 != keepAlive {
      var f := Field("Connection", if http11 then "close" else "keep-alive");
      assert Lower("Connection") == "connection";
      SettingAppends(out, f, "connection");
      out := WithField(out, f);
    }
  }

  method SetLength(fields: seq<Field>, length: string) returns (out: seq<Field>)
    requires Lacks(fields, "content-length")
    ensures out == fields + [Field("Content-Length", length)]
  {
    var f := Field("Content-Length", length);
    assert Lower("Content-Length") == "content-length";
    SettingAppends(fields, f, "content-length");
    out := WithField(fields, f);
  }

  /** The copied request fields have none of the names that are set afterwards. */
  lemma KeptRequestLacks(fields: seq<Field>, stripAuthorization: bool)
    ensures var kept := Filter(fields, RequestKeeps(Tokens(fields), stripAuthorization));
      Lacks(kept, "host") && Lacks(kept, "connection") && Lacks(kept, "content-length")
  {
    FilteredAreKept(fields, RequestKeeps(Tokens(fields), stripAuthorization));
  }

  lemma KeptResponseLacks(fields: seq<Field>)
    ensures var kept := Filter(fields, ResponseKeeps(Tokens(fields))); Lacks(kept, "server") && Lacks(kept, "connection")
  {
    FilteredAreKept(fields, ResponseKeeps(Tokens(fields)));
  }

  /** Every forwarded field was there, unchanged, and is neither fixed hop-by-hop nor nominated. */
  lemma ForwardedAreEndToEnd(fields: seq<Field>, stripAuthorization: bool)
    ensures forall f :: f in Filter(fields, RequestKeeps(Tokens(fields), stripAuthorization)) || f in Filter(fields, ResponseKeeps(Tokens(fields))) ==>
      f in fields && Lower(f.name) !in FIXED && Lower(f.name) !in Tokens(fields)
  {
    FilteredAreKept(fields, RequestKeeps(Tokens(fields), stripAuthorization));
    FilteredAreKept(fields, ResponseKeeps(Tokens(fields)));
  }

  /** The names that never pass a hop, and those the gateway drops or rebuilds, written out. */
  lemma NeverForwarded(fields: seq<Field>, stripAuthorization: bool, f: Field)
    ensures f in Filter(fields, RequestKeeps(Tokens(fields), stripAuthorization)) <==>
      && f in fields && Lower(f.name) !in Tokens(fields)
      && Lower(f.name) !in {"connection", "keep-alive", "te", "trailer", "transfer-encoding", "upgrade",
                            "proxy-connection", "proxy-authenticate", "proxy-authorization", "host", "content-length", "expect"}
      && !("x-forwarded-" <= Lower(f.name)) && !(stripAuthorization && Lower(f.name) == "authorization")
    ensures f in Filter(fields, ResponseKeeps(Tokens(fields))) <==>
      && f in fields && Lower(f.name) !in Tokens(fields)
      && Lower(f.name) !in {"connection", "keep-alive", "te", "trailer", "transfer-encoding", "upgrade",
                            "proxy-connection", "proxy-authenticate", "proxy-authorization", "server", "content-length"}
  {
    FilteredAreKept(fields, RequestKeeps(Tokens(fields), stripAuthorization));
    FilteredAreKept(fields, ResponseKeeps(Tokens(fields)));
  }

  /** How a recipient reads a message: HTTP/1.1 persists unless told to close, HTTP/1.0 closes unless told to keep alive. */
  predicate Persists(http11: bool, fields: seq<Field>) {
    if http11 then "close" !in Tokens(fields) else "keep-alive" in Tokens(fields)
  }

  /** A value that is one lower-case word is its own only token. */
  lemma SingleToken(value: string)
    requires value != "" && ',' !in value && Lower(value) == value
    requires value[0] != ' ' && value[0] != '\t' && value[|value| - 1] != ' ' && value[|value| - 1] != '\t'
    ensures ValueTokens(value) == {value}
  {
    OneElement(value);
    TrimmedAlready(value);
    CollectedOne(value, TokenOf);
  }

  lemma OneElement(value: string)
    requires ',' !in value
    ensures Split(value, ',') == [value]
  {
    assert value[..|value|] == value;
    IndexOfIs(value, ',', |value|);
  }

  lemma TrimmedAlready(value: string)
    requires value != "" && Lower(value) == value
    requires value[0] != ' ' && value[0] != '\t' && value[|value| - 1] != ' ' && value[|value| - 1] != '\t'
    ensures TokenOf(value) == {value}
  {
    assert value == "" + value + "";
    TokenIsTheTrimmedText(value, "", value, "");
  }

  lemma CollectedOne(e: string, of: string -> set<string>)
    ensures Collected([e], of) == of(e)
  {
    assert [e][1..] == [];
  }

  lemma {:induction false} TokensWithoutConnection(fields: seq<Field>)
    requires Lacks(fields, "connection")
    ensures Tokens(fields) == {}
  {
  }

  /** With one Connection field, its tokens are all there are. */
  lemma OneConnectionField(before: seq<Field>, f: Field, after: seq<Field>)
    requires Lacks(before, "connection") && Lacks(after, "connection") && Named(f, "connection")
    ensures Tokens(before + [f] + after) == ValueTokens(f.value)
  {
    var all := before + [f] + after;
    assert forall g :: g in all <==> g in before || g == f || g in after;
    forall t ensures t in Tokens(all) <==> t in ValueTokens(f.value) {
      ValueTokensMeans(f.value, t);
    }
  }

  /** The field that is set says what was wished: whoever reads the finished message, at either version, persists exactly if wished. */
  lemma PersistenceIsUnderstood(before: seq<Field>, after: seq<Field>, http11: bool, keepAlive: bool)
    requires Lacks(before, "connection") && Lacks(after, "connection")
    ensures Persists(http11, before + Persistence(http11, keepAlive) + after) <==> keepAlive
  {
    if http11 == keepAlive {
      assert before + [] + after == before + after;
      assert Lacks(before + after, "connection");
      TokensWithoutConnection(before + after);
    } else {
      var value := if http11 then "close" else "keep-alive";
      assert Lower("Connection") == "connection" && Lower(value) == value;
      SingleToken(value);
      OneConnectionField(before, Field("Connection", value), after);
    }
  }

  method SetHost(fields: seq<Field>, authority: string) returns (out: seq<Field>)
    requires Lacks(fields, "host")
    ensures out == fields + [Field("Host", authority)]
    ensures forall other :: other != "host" && Lacks(fields, other) ==> Lacks(out, other)
  {
    var f := Field("Host", authority);
    assert Lower("Host") == "host";
    SettingAppends(fields, f, "host");
    out := WithField(fields, f);
  }

  /**
   The fields of `make_upstream_request`: the forwarded ones, then Host, then Connection unless the pool
   keeps the connection, then Content-Length unless there is a GET without a body.
   */
  method UpstreamFields(fields: seq<Field>, stripAuthorization: bool, authority: string, keepAlive: bool, isGet: bool, bodyEmpty: bool, length: string)
    returns (out: seq<Field>)
    requires Grouped(fields)
    ensures out == Filter(fields, RequestKeeps(Tokens(fields), stripAuthorization)) + [Field("Host", authority)]
              + Persistence(true, keepAlive) + (if isGet && bodyEmpty then [] else [Field("Content-Length", length)])
  {
    var tokens := ConnectionTokens(fields);
    out := CopyFields(fields, RequestKeeps(tokens, stripAuthorization));
    KeptRequestLacks(fields, stripAuthorization);
    out := SetHost(out, authority);
    out := SetPersistence(out, true, keepAlive);
    if !isGet {
      out := SetLength(out, length);
    } else if !bodyEmpty {
      out := SetLength(out, length);
    }
  }

  /** The fields of `make_downstream_header`: the forwarded ones, then the gateway's Server, then Connection as the client's request asks. */
  method DownstreamFields(fields: seq<Field>, http11: bool, keepAlive: bool) returns (out: seq<Field>)
    requires Grouped(fields)
    ensures out == Filter(fields, ResponseKeeps(Tokens(fields))) + [Field("Server", "ApiGate")] + Persistence(http11, keepAlive)
  {
    var tokens := ConnectionTokens(fields);
    out := CopyFields(fields, ResponseKeeps(tokens));
    KeptResponseLacks(fields);
    assert Lower("Server") == "server";
    SettingAppends(out, Field("Server", "ApiGate"), "server");
    out := WithField(out, Field("Server", "ApiGate"));
    out := SetPersistence(out, http11, keepAlive);
  }

  /** Exactly the kept fields survive. */
  lemma FilteredAreKept(fields: seq<Field>, keep: Field -> bool)
    ensures forall f :: f in Filter(fields, keep) <==> f in fields && keep(f)
  {
    var at := FilterIsTheKeptSubsequence(fields, keep);
    var out := Filter(fields, keep);
    forall f | f in fields && keep(f) ensures f in out {
      var k :| 0 <= k < |fields| && fields[k] == f;
      var i :| 0 <= i < |at| && at[i] == k;
      assert out[i] == f;
    }
    forall f | f in out ensures f in fields && keep(f) {
      var i :| 0 <= i < |out| && out[i] == f;
    }
  }

  /** Inserting keeps equally named fields together, so every message built by insertions is grouped. */
  lemma {:induction false} InsertKeepsGrouping(fields: seq<Field>, f: Field)
    requires Grouped(fields)
    ensures Grouped(Insert(fields, f))
  {
    var n := InsertPosition(fields, f);
    var out := Insert(fields, f);
    PositionIsAfterTheName(fields, f);
    forall i, j, k | 0 <= i <= k <= j < |out| && SameName(out[i], out[j])
      ensures SameName(out[i], out[k])
    {
      var i', j', k' := Before(i, n), Before(j, n), Before(k, n);
      if i != n && j != n && k != n {
        assert SameName(fields[i'], fields[j']);
      }
    }
  }

  /** The position in the old sequence of what stands at `i` after an insertion at `n`. */
  function Before(i: nat, n: nat): int { if i <= n then i else i - 1 }

  /** No field with the inserted name stands after the position; if there is one at all, one stands just before it. */
  lemma {:induction false} PositionIsAfterTheName(fields: seq<Field>, f: Field)
    ensures forall i :: InsertPosition(fields, f) <= i < |fields| ==> !SameName(fields[i], f)
    ensures (exists i :: 0 <= i < |fields| && SameName(fields[i], f)) ==>
      InsertPosition(fields, f) > 0 && SameName(fields[InsertPosition(fields, f) - 1], f)
  {
    if fields != [] && !SameName(fields[|fields| - 1], f) {
      PositionIsAfterTheName(fields[..|fields| - 1], f);
    }
  }
}
