/**
 The JSON of an ADR-036 sign document: a tree written without whitespace, its keys in ascending
 order. `Authorization.Document` is the text of one such tree.
 */
module AminoJson {
  import opened Bytes
  import opened Authorization

  /** The strings are the ones a sign document has, which need no escaping. */
  datatype Json = Text(text: string) | List(items: seq<Json>) | Object(members: seq<(string, Json)>)

  function Quote(s: string): string {
    "\"" + s + "\""
  }

  function Write(j: Json): string {
    match j
    case Text(s) => Quote(s)
    case List(items) => "[" + WriteItems(items) + "]"
    case Object(members) => "{" + WriteMembers(members) + "}"
  }

  function WriteItems(items: seq<Json>): string {
    if items == [] then ""
    else Write(items[0]) + (if |items| == 1 then "" else ",") + WriteItems(items[1..])
  }

  function WriteMembers(members: seq<(string, Json)>): string {
    if members == [] then ""
    else WriteMember(members[0]) + (if |members| == 1 then "" else ",") + WriteMembers(members[1..])
  }

  function WriteMember(m: (string, Json)): string {
    Quote(m.0) + ":" + Write(m.1)
  }

  /** Before in the order of character codes. */
  predicate Before(x: string, y: string) {
    if y == "" then false
    else if x == "" then true
    else x[0] < y[0] || (x[0] == y[0] && Before(x[1..], y[1..]))
  }

  predicate Sorted(j: Json) {
    match j
    case Text(_) => true
    case List(items) => forall i :: 0 <= i < |items| ==> Sorted(items[i])
    case Object(members) =>
      && (forall i :: 0 < i < |members| ==> Before(members[i - 1].0, members[i].0))
      && (forall i :: 0 <= i < |members| ==> Sorted(members[i].1))
  }

  /** The node and the client describe the same document, member by member. */
  function SignData(data: string, signer: string): Json {
    Object([("data", Text(data)), ("signer", Text(signer))])
  }

  const FEE: Json := Object([("amount", List([])), ("gas", Text("0"))])

  function Message(data: string, signer: string): Json {
    Object([("type", Text("sign/MsgSignData")), ("value", SignData(data, signer))])
  }

  function DocumentTree(data: string, signer: string): Json {
    Object([("account_number", Text("0")), ("chain_id", Text("")), ("fee", FEE), ("memo", Text("")),
            ("msgs", List([Message(data, signer)])), ("sequence", Text("0"))])
  }

  // ---------------------------------------------------------------- the text

  /** A text around two strings. */
  function Fill(head: string, data: string, middle: string, signer: string, tail: string): string {
    head + (data + (middle + (signer + tail)))
  }

  lemma Enclose(before: string, head: string, data: string, middle: string, signer: string,
                tail: string, after: string)
    ensures before + Fill(head, data, middle, signer, tail) + after
         == Fill(before + head, data, middle, signer, tail + after)
  {
    Regroup(before, head, data + (middle + (signer + tail)));
    Regroup(before + head, data + (middle + (signer + tail)), after);
    Regroup(data, middle + (signer + tail), after);
    Regroup(middle, signer + tail, after);
    Regroup(signer, tail, after);
  }

  lemma WriteCons(m: (string, Json), rest: seq<(string, Json)>)
    ensures WriteMembers([m] + rest)
         == if rest == [] then WriteMember(m) else WriteMember(m) + "," + WriteMembers(rest)
  {
    assert ([m] + rest)[1..] == rest;
    hide WriteMember;
  }

  lemma WriteTwo(m: (string, Json), n: (string, Json))
    ensures Write(Object([m, n])) == "{" + (WriteMember(m) + "," + WriteMember(n)) + "}"
  {
    assert [m, n] == [m] + [n] && [n] == [n] + [];
    WriteCons(m, [n]);
    WriteCons(n, []);
    hide WriteMembers, WriteMember;
  }

  lemma WriteOneItem(j: Json)
    ensures Write(List([j])) == "[" + Write(j) + "]"
  {
    assert WriteItems([j]) == Write(j) + "" + WriteItems([j][1..]);
    assert WriteItems([]) == "";
  }

  lemma Weave(o: string, a: string, x: string, q: string, c: string, b: string, y: string, e: string)
    ensures o + (a + (x + q) + c + (b + (y + q))) + e == Fill(o + a, x, q + c + b, y, q + e)
  {
    Regroup(b, y, q);
    Regroup(b + y, q, e);
    Regroup(b, y, q + e);
    assert b + (y + q) + e == b + (y + (q + e));
    Regroup(q + c, b, y + (q + e));
    Regroup(x, q, c);
    Regroup(x, q + c, b + (y + (q + e)));
    Regroup(a, x + q, c);
    Regroup(a + (x + q) + c, b + (y + q), e);
    Regroup(o, a + (x + q) + c + (b + (y + q)), e);
    Regroup(a, x + (q + c), b + (y + (q + e)));
    Regroup(o, a, x + (q + c + b + (y + (q + e))));
  }

  lemma TextMember(key: string, text: string)
    ensures WriteMember((key, Text(text))) == Quote(key) + ":" + "\"" + (text + "\"")
  {
    Regroup(Quote(key) + ":", "\"", text + "\"");
    Regroup("\"", text, "\"");
  }

  lemma DataText(data: string, signer: string)
    ensures Write(SignData(data, signer))
         == Fill("{\"data\":\"", data, "\",\"signer\":\"", signer, "\"}")
  {
    WriteTwo(("data", Text(data)), ("signer", Text(signer)));
    TextMember("data", data);
    TextMember("signer", signer);
    var a, b := Quote("data") + ":" + "\"", Quote("signer") + ":" + "\"";
    assert "{" + a == "{\"data\":\"" && "\"" + "," + b == "\",\"signer\":\"" && "\"" + "}" == "\"}";
    hide Write, WriteMember, Fill, Quote;
    Weave("{", a, data, "\"", ",", b, signer, "}");
  }

  lemma Lead(o: string, t: string, c: string, v: string, inner: string)
    ensures o + (t + c + (v + inner)) == o + (t + c) + v + inner
  {
    Regroup(t + c, v, inner);
    Regroup(o, t + c, v + inner);
    Regroup(o + (t + c), v, inner);
  }

  lemma MessageText(data: string, signer: string)
    ensures Write(Message(data, signer)) == Fill(MESSAGE_HEAD, data, DOCUMENT_MIDDLE, signer, "\"}" + "}")
  {
    WriteTwo(("type", Text("sign/MsgSignData")), ("value", SignData(data, signer)));
    DataText(data, signer);
    var v, inner := Quote("value") + ":", Write(SignData(data, signer));
    assert WriteMember(("value", SignData(data, signer))) == v + inner;
    var ty := WriteMember(("type", Text("sign/MsgSignData")));
    assert ty + "," == "\"type\":\"sign/MsgSignData\"," && v == "\"value\":";
    hide Write, WriteMember, Fill, Quote;
    Lead("{", ty, ",", v, inner);
    Enclose("{" + (ty + ",") + v, "{\"data\":\"", data, "\",\"signer\":\"", signer, "\"}", "}");
  }

  lemma AccountText()
    ensures WriteMember(("account_number", Text("0"))) + "," == "\"account_number\":\"0\","
  {
  }

  lemma ChainText()
    ensures WriteMember(("chain_id", Text(""))) + "," == "\"chain_id\":\"\","
  {
  }

  lemma FeeValue()
    ensures Write(FEE) == "{\"amount\":[],\"gas\":\"0\"}"
  {
    WriteTwo(("amount", List([])), ("gas", Text("0")));
    assert WriteMember(("amount", List([]))) == "\"amount\":[]";
    assert WriteMember(("gas", Text("0"))) == "\"gas\":\"0\"";
    hide Write, WriteMember;
  }

  lemma FeeText()
    ensures WriteMember(("fee", FEE)) + "," == "\"fee\":" + "{\"amount\":[],\"gas\":\"0\"}" + ","
  {
    assert Quote("fee") + ":" == "\"fee\":";
    assert WriteMember(("fee", FEE)) == Quote("fee") + ":" + Write(FEE);
    hide *;
    FeeValue();
  }

  lemma MemoText()
    ensures WriteMember(("memo", Text(""))) + "," == "\"memo\":\"\","
  {
  }

  lemma MessagesText(data: string, signer: string)
    ensures WriteMember(("msgs", List([Message(data, signer)])))
         == Fill("\"msgs\":" + ("[" + MESSAGE_HEAD), data, DOCUMENT_MIDDLE, signer, "\"}" + "}" + "]")
  {
    var m := Message(data, signer);
    MessageText(data, signer);
    WriteOneItem(m);
    assert Quote("msgs") + ":" == "\"msgs\":";
    assert WriteMember(("msgs", List([m]))) == Quote("msgs") + ":" + Write(List([m]));
    hide Write, WriteMember, Fill, Quote;
    Enclose("[", MESSAGE_HEAD, data, DOCUMENT_MIDDLE, signer, "\"}" + "}", "]");
    Prepend("\"msgs\":", "[" + MESSAGE_HEAD, data, DOCUMENT_MIDDLE, signer, "\"}" + "}" + "]");
  }

  lemma Prepend(before: string, head: string, data: string, middle: string, signer: string, tail: string)
    ensures before + Fill(head, data, middle, signer, tail) == Fill(before + head, data, middle, signer, tail)
  {
    Regroup(before, head, data + (middle + (signer + tail)));
  }

  lemma Append(head: string, data: string, middle: string, signer: string, tail: string, after: string)
    ensures Fill(head, data, middle, signer, tail) + after == Fill(head, data, middle, signer, tail + after)
  {
    Enclose("", head, data, middle, signer, tail, after);
  }

  lemma SequenceText()
    ensures "\"}" + "}" + "]" + ("," + WriteMember(("sequence", Text("0")))) + "}" == DOCUMENT_TAIL
  {
    assert WriteMember(("sequence", Text("0"))) == "\"sequence\":\"0\"";
    hide WriteMember;
  }

  /** Six members behind one another. */
  lemma WriteSix(a: (string, Json), b: (string, Json), c: (string, Json), d: (string, Json),
                 e: (string, Json), f: (string, Json))
    ensures Write(Object([a, b, c, d, e, f]))
         == "{" + (WriteMember(a) + ","
                   + (WriteMember(b) + ","
                      + (WriteMember(c) + ","
                         + (WriteMember(d) + "," + (WriteMember(e) + "," + WriteMember(f)))))) + "}"
  {
    assert [a, b, c, d, e, f] == [a] + [b, c, d, e, f] && [b, c, d, e, f] == [b] + [c, d, e, f];
    assert [c, d, e, f] == [c] + [d, e, f] && [d, e, f] == [d] + [e, f];
    assert [e, f] == [e] + [f] && [f] == [f] + [];
    WriteCons(a, [b, c, d, e, f]);
    WriteCons(b, [c, d, e, f]);
    WriteCons(c, [d, e, f]);
    WriteCons(d, [e, f]);
    WriteCons(e, [f]);
    WriteCons(f, []);
    hide WriteMembers, WriteMember;
  }

  /** The document is sorted JSON: the text the node signs is the one text of its tree with all keys
      in ascending order, whatever the two strings are. */
  lemma DocumentIsSortedJson(data: string, signer: string)
    ensures Document(data, signer) == Write(DocumentTree(data, signer))
    ensures Sorted(DocumentTree(data, signer))
  {
    DocumentText(data, signer);
    DocumentSorted(data, signer);
  }

  lemma DocumentText(data: string, signer: string)
    ensures Document(data, signer) == Write(DocumentTree(data, signer))
  {
    var a, b := ("account_number", Text("0")), ("chain_id", Text(""));
    var c, d := ("fee", FEE), ("memo", Text(""));
    var e, f := ("msgs", List([Message(data, signer)])), ("sequence", Text("0"));
    assert DocumentTree(data, signer) == Object([a, b, c, d, e, f]);
    assert Document(data, signer) == Fill(DOCUMENT_HEAD, data, DOCUMENT_MIDDLE, signer, DOCUMENT_TAIL);
    hide *;
    WriteSix(a, b, c, d, e, f);
    AccountText();
    ChainText();
    FeeText();
    MemoText();
    MessagesText(data, signer);
    SequenceText();
    JoinSix(WriteMember(a) + ",", WriteMember(b) + ",", WriteMember(c) + ",", WriteMember(d) + ",",
            "\"msgs\":" + ("[" + MESSAGE_HEAD), data, DOCUMENT_MIDDLE, signer, "\"}" + "}" + "]",
            "," + WriteMember(f));
    Regroup(WriteMember(e), ",", WriteMember(f));
  }

  lemma JoinSix(a: string, b: string, c: string, d: string, head: string, data: string, middle: string,
                signer: string, tail: string, f: string)
    ensures "{" + (a + (b + (c + (d + (Fill(head, data, middle, signer, tail) + f))))) + "}"
         == Fill("{" + (a + (b + (c + (d + head)))), data, middle, signer, tail + f + "}")
  {
    hide *;
    Append(head, data, middle, signer, tail, f);
    Prepend(d, head, data, middle, signer, tail + f);
    Prepend(c, d + head, data, middle, signer, tail + f);
    Prepend(b, c + (d + head), data, middle, signer, tail + f);
    Prepend(a, b + (c + (d + head)), data, middle, signer, tail + f);
    Enclose("{", a + (b + (c + (d + head))), data, middle, signer, tail + f, "}");
  }

  lemma DocumentSorted(data: string, signer: string)
    ensures Sorted(DocumentTree(data, signer))
  {
    assert Before("data", "signer") && Before("amount", "gas") && Before("type", "value");
    assert Before("account_number", "chain_id") && Before("chain_id", "fee") && Before("fee", "memo");
    assert Before("memo", "msgs") by {
      assert "memo"[1..][0] == 'e' && "msgs"[1..][0] == 's';
    }
    assert Before("msgs", "sequence");
    assert Sorted(SignData(data, signer)) && Sorted(FEE);
    hide Before;
    assert Sorted(Message(data, signer));
    assert Sorted(List([Message(data, signer)]));
  }
}
