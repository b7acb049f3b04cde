/**
 * The error body the MangaDex API returns with a failing status, and the message
 * `ErrorResponse.Error` builds from it.
 */
module ErrorFormat {
  import opened Strings
  import opened Sequences

  datatype ErrorDetail = ErrorDetail(id: string, status: int, title: string, detail: string, context: string)

  datatype ErrorResponse = ErrorResponse(result: string, errors: seq<ErrorDetail>)
  {
    /** "result: R ; errors: [", the rendered details separated by ", ", then "]". */
    method Error() returns (msg: string)
      ensures msg == Message(this)
    {
      var h := Header(result);
      msg := h;
      for i := 0 to |errors|
        invariant 0 < i < |errors| ==> msg == h + Join(RenderAll(errors[..i]), ", ") + ", "
        invariant i == 0 || i == |errors| ==> msg == h + Join(RenderAll(errors[..i]), ", ")
      {
        var r := Render(errors[i]);
        PrefixStep(h, errors, i, msg, r);
        msg := msg + r;
        if i < |errors| - 1 {
          msg := msg + ", ";
        }
      }
      assert errors[..|errors|] == errors;
      assert msg == h + Join(RenderAll(errors), ", ");
      msg := msg + "]";
    }
  }

  function Header(result: string): string
  {
    "result: " + result + " ; errors: ["
  }

  /** One detail as "{id: I, status: S, title: T, detail: D, context: C}", the status in decimal. */
  function Render(d: ErrorDetail): string
  {
    "{id: " + d.id + ", status: "
    + Flatten([IntToString(d.status), ", title: ", d.title, ", detail: ", d.detail, ", context: ", d.context]) + "}"
  }

  function RenderAll(ds: seq<ErrorDetail>): (rs: seq<string>)
    ensures |rs| == |ds| && forall i :: 0 <= i < |ds| ==> rs[i] == Render(ds[i])
  {
    if ds == [] then [] else RenderAll(ds[..|ds| - 1]) + [Render(ds[|ds| - 1])]
  }

  lemma RenderAllSnoc(ds: seq<ErrorDetail>, d: ErrorDetail)
    ensures RenderAll(ds + [d]) == RenderAll(ds) + [Render(d)]
  {
  }

  /** The message of a response, as Error builds it. */
  function Message(e: ErrorResponse): string
  {
    Header(e.result) + Join(RenderAll(e.errors), ", ") + "]"
  }

  /** The message always starts with the result header and ends with "]". */
  lemma MessageFrame(e: ErrorResponse)
    ensures HasPrefix(Message(e), "result: " + e.result + " ; errors: [")
    ensures |Message(e)| > 0 && Message(e)[|Message(e)| - 1] == ']'
  {
    var m := Message(e);
    assert m == Header(e.result) + (Join(RenderAll(e.errors), ", ") + "]");
    assert m[..|Header(e.result)|] == Header(e.result);
  }

  /** Without details the message is exactly "result: R ; errors: []". */
  lemma MessageWithoutDetails(result: string)
    ensures Message(ErrorResponse(result, [])) == "result: " + result + " ; errors: []"
  {
  }

  /** A further detail is appended after ", " when there are details already, never otherwise. */
  lemma MessageOneMore(result: string, ds: seq<ErrorDetail>, d: ErrorDetail)
    ensures Message(ErrorResponse(result, ds + [d]))
      == if ds == [] then Header(result) + Render(d) + "]"
         else Header(result) + Join(RenderAll(ds), ", ") + ", " + Render(d) + "]"
  {
    var h, r := Header(result), Render(d);
    RenderAllSnoc(ds, d);
    JoinSnoc(RenderAll(ds), r, ", ");
    if ds != [] {
      var j := Join(RenderAll(ds), ", ");
      ConcatAssoc(h, j + ", ", r);
      ConcatAssoc(h, j, ", ");
    }
  }

  /** One more detail extends the message built so far by the separator and its rendering. */
  lemma PrefixStep(h: string, es: seq<ErrorDetail>, i: nat, m: string, r: string)
    requires i < |es| && r == Render(es[i])
    requires 0 < i ==> m == h + Join(RenderAll(es[..i]), ", ") + ", "
    requires i == 0 ==> m == h + Join(RenderAll(es[..i]), ", ")
    ensures m + r == h + Join(RenderAll(es[..i + 1]), ", ")
  {
    var j := Join(RenderAll(es[..i]), ", ");
    assert es[..i + 1] == es[..i] + [es[i]];
    RenderAllSnoc(es[..i], es[i]);
    JoinSnoc(RenderAll(es[..i]), r, ", ");
    if i > 0 {
      ConcatAssoc(h, j + ", ", r);
      ConcatAssoc(h, j, ", ");
    } else {
      assert j == "" && h + j == h;
    }
  }

  lemma ConcatAssoc(a: string, b: string, c: string)
    ensures a + (b + c) == a + b + c
  {
  }

  /** A single detail is rendered between the brackets with no separator. */
  lemma MessageOneDetail(result: string, d: ErrorDetail)
    ensures Message(ErrorResponse(result, [d])) == "result: " + result + " ; errors: [" + Render(d) + "]"
  {
    MessageOneMore(result, [], d);
    assert [] + [d] == [d];
  }

  /** A rendered detail is braced and opens with its id. */
  lemma RenderFrame(d: ErrorDetail)
    ensures HasPrefix(Render(d), "{id: " + d.id + ", status: ")
    ensures Render(d)[|Render(d)| - 1] == '}'
  {
    var head := "{id: " + d.id + ", status: ";
    var mid := Flatten([IntToString(d.status), ", title: ", d.title, ", detail: ", d.detail, ", context: ", d.context]);
    var r := head + mid + "}";
    assert Render(d) == r;
    assert r[..|head|] == head;
  }
}
