/**
 * The lead-capture tool (`purchase_intent` and its `tool_config`,
 * utility_tools/purchase_intent.py).
 *
 * The arguments are the decoded JSON object, with string values. The webhook
 * POST is replaced by its outcome, given as a parameter: an HTTP response or
 * a transport failure. The result records the reply text and the payload
 * that was posted, if any.
 */
module PurchaseIntent {
  import opened Wrappers
  import PyStrings
  import PercentDecoding

  /** `tool_config["function"]["name"]` */
  const FunctionName := "purchase_intent"

  /** `tool_config["function"]["parameters"]["required"]` */
  const RequiredParameters: seq<string> := ["name", "email", "phone_number", "conversation_summary"]

  /** How the prompt names each field, in the order the checks run. */
  const FieldLabels: seq<string> := [
    "nombre",
    "correo electr\U{F3}nico",
    "n\U{FA}mero de tel\U{E9}fono",
    "resumen de la conversaci\U{F3}n"]

  const PromptPrefix := "Por favor proporciona tu "
  const LabelSeparator := " y "
  const SuccessMessage := "Tu inter\U{E9}s ha sido registrado. " + "Nos pondremos en contacto contigo pronto."
  const RejectedPrefix := "Error al procesar tu solicitud: "
  const TransportPrefix := "No se pudo enviar la " + "informaci\U{F3}n al webhook: "

  /** The decoded JSON arguments. */
  type Arguments = map<string, string>

  /** What `requests.post(WEBHOOK_URL, ...)` gives back, or the `RequestException` it raises. */
  datatype WebhookOutcome = HttpResponse(statusCode: int, text: string) | RequestFailed(reason: string)

  /** The reply returned to the assistant, and the payload sent to the webhook when one was sent. */
  datatype IntentResult = IntentResult(reply: string, posted: Option<map<string, string>>)

  /** `arguments.get(key, '')` */
  function Field(args: Arguments, key: string): string {
    if key in args then args[key] else ""
  }

  /** The four values the function checks, in order; the name is percent-decoded twice. */
  function Values(args: Arguments): (v: seq<string>)
    ensures |v| == |RequiredParameters|
    ensures forall k :: 1 <= k < |v| ==> v[k] == Field(args, RequiredParameters[k])
  {
    [PercentDecoding.Unquote(PercentDecoding.Unquote(Field(args, "name"))),
     Field(args, "email"),
     Field(args, "phone_number"),
     Field(args, "conversation_summary")]
  }

  /** The labels of the empty values, keeping the order of `labels`. */
  function MissingLabels(values: seq<string>, labels: seq<string>): seq<string>
    requires |values| == |labels|
    decreases |values|
  {
    if values == [] then []
    else MissingLabels(values[..|values| - 1], labels[..|labels| - 1])
         + (if values[|values| - 1] == "" then [labels[|labels| - 1]] else [])
  }

  /** `missing_fields`, as the four successive checks build it. */
  method CollectMissingFields(name: string, email: string, phoneNumber: string, conversationSummary: string)
    returns (missing: seq<string>)
    ensures missing == MissingLabels([name, email, phoneNumber, conversationSummary], FieldLabels)
  {
    ghost var values := [name, email, phoneNumber, conversationSummary];
    missing := [];
    if name == "" {
      missing := missing + [FieldLabels[0]];
    }
    assert missing == Reported(values, FieldLabels, 0);
    if email == "" {
      missing := missing + [FieldLabels[1]];
    }
    assert missing == Reported(values, FieldLabels, 0) + Reported(values, FieldLabels, 1);
    if phoneNumber == "" {
      missing := missing + [FieldLabels[2]];
    }
    assert missing == Reported(values, FieldLabels, 0) + Reported(values, FieldLabels, 1) + Reported(values, FieldLabels, 2);
    if conversationSummary == "" {
      missing := missing + [FieldLabels[3]];
    }
    MissingFourLabels(values, FieldLabels);
  }

  /** What the check of value `k` adds to the list. */
  function Reported(values: seq<string>, labels: seq<string>, k: nat): seq<string>
    requires |values| == |labels| && k < |labels|
  {
    if values[k] == "" then [labels[k]] else []
  }

  /** Four checks, one after the other. */
  lemma MissingFourLabels(values: seq<string>, labels: seq<string>)
    requires |values| == 4 && |labels| == 4
    ensures MissingLabels(values, labels) ==
      Reported(values, labels, 0) + Reported(values, labels, 1)
      + Reported(values, labels, 2) + Reported(values, labels, 3)
  {
    var v3, l3 := values[..3], labels[..3];
    var v2, l2 := v3[..2], l3[..2];
    var v1, l1 := v2[..1], l2[..1];
    assert MissingLabels(v1, l1) == Reported(values, labels, 0) by {
      assert v1[..0] == [] && l1[..0] == [];
      assert v1[0] == values[0] && l1[0] == labels[0];
    }
    assert MissingLabels(v2, l2) == MissingLabels(v1, l1) + Reported(values, labels, 1) by {
      assert v2[1] == values[1] && l2[1] == labels[1];
    }
    assert MissingLabels(v3, l3) == MissingLabels(v2, l2) + Reported(values, labels, 2) by {
      assert v3[2] == values[2] && l3[2] == labels[2];
    }
  }

  /** The request for the missing fields. */
  function Prompt(missing: seq<string>): string {
    PromptPrefix + PyStrings.Join(missing, LabelSeparator) + "."
  }

  /** The webhook payload: the decoded name and the other three values as given. */
  function Payload(values: seq<string>): map<string, string>
    requires |values| == 4
  {
    map["name" := values[0], "email" := values[1], "phone_number" := values[2],
        "conversation_summary" := values[3]]
  }

  /** The reply chosen by the webhook outcome. */
  function WebhookReply(outcome: WebhookOutcome): string {
    match outcome
    case HttpResponse(status, text) => if status == 200 then SuccessMessage else RejectedPrefix + text
    case RequestFailed(reason) => TransportPrefix + reason
  }

  /** `purchase_intent(arguments)` */
  function PurchaseIntent(args: Arguments, webhook: WebhookOutcome): IntentResult {
    var values := Values(args);
    var missing := MissingLabels(values, FieldLabels);
    if missing != [] then IntentResult(Prompt(missing), None)
    else IntentResult(WebhookReply(webhook), Some(Payload(values)))
  }

  // ------------------------------------------------------------------
  // Properties
  // ------------------------------------------------------------------

  /** A label is reported exactly when its value is empty, in the order of `labels`. */
  lemma MissingLabelsSpec(values: seq<string>, labels: seq<string>)
    requires |values| == |labels|
    requires forall i, j :: 0 <= i < j < |labels| ==> labels[i] != labels[j]
    ensures forall k :: 0 <= k < |labels| ==> (labels[k] in MissingLabels(values, labels) <==> values[k] == "")
    ensures forall l :: l in MissingLabels(values, labels) ==> l in labels
    ensures |MissingLabels(values, labels)| <= |labels|
    ensures MissingLabels(values, labels) == [] <==> forall k :: 0 <= k < |values| ==> values[k] != ""
  {
    var missing := MissingLabels(values, labels);
    MissingLabelsSound(values, labels);
    MissingLabelsLength(values, labels);
    forall k | 0 <= k < |labels| ensures labels[k] in missing <==> values[k] == "" {
      if values[k] == "" {
        MissingLabelsComplete(values, labels, k);
      }
      if labels[k] in missing {
        var i :| 0 <= i < |labels| && labels[i] == labels[k] && values[i] == "";
        assert i == k;
      }
    }
    if missing != [] {
      assert missing[0] in missing;
    }
  }

  /** Every reported label belongs to an empty value. */
  lemma {:induction false} MissingLabelsSound(values: seq<string>, labels: seq<string>)
    requires |values| == |labels|
    ensures forall l :: l in MissingLabels(values, labels) ==>
      exists i :: 0 <= i < |labels| && labels[i] == l && values[i] == ""
    decreases |values|
  {
    if values != [] {
      var n := |values| - 1;
      var vs, ls := values[..n], labels[..n];
      MissingLabelsSound(vs, ls);
      forall l | l in MissingLabels(values, labels)
        ensures exists i :: 0 <= i < |labels| && labels[i] == l && values[i] == ""
      {
        if l in MissingLabels(vs, ls) {
          var i :| 0 <= i < |ls| && ls[i] == l && vs[i] == "";
          assert labels[i] == l && values[i] == "";
        } else {
          assert labels[n] == l && values[n] == "";
        }
      }
    }
  }

  /** The label of every empty value is reported. */
  lemma {:induction false} MissingLabelsComplete(values: seq<string>, labels: seq<string>, k: nat)
    requires |values| == |labels| && k < |labels| && values[k] == ""
    ensures labels[k] in MissingLabels(values, labels)
    decreases |values|
  {
    var n := |values| - 1;
    if k < n {
      MissingLabelsComplete(values[..n], labels[..n], k);
    }
  }

  lemma {:induction false} MissingLabelsLength(values: seq<string>, labels: seq<string>)
    requires |values| == |labels|
    ensures |MissingLabels(values, labels)| <= |labels|
    decreases |values|
  {
    if values != [] {
      MissingLabelsLength(values[..|values| - 1], labels[..|labels| - 1]);
    }
  }

  /** The labels as given are distinct. */
  lemma FieldLabelsDistinct()
    ensures forall i, j :: 0 <= i < j < |FieldLabels| ==> FieldLabels[i] != FieldLabels[j]
  {
    assert FieldLabels[0][0] == 'n' && FieldLabels[1][0] == 'c' && FieldLabels[2][0] == 'n' && FieldLabels[3][0] == 'r';
    assert FieldLabels[0][1] != FieldLabels[2][1];
  }

  /** The name counts as missing exactly when the raw `name` argument is absent or empty. */
  lemma NameMissingIffRawEmpty(args: Arguments)
    ensures FieldLabels[0] in MissingLabels(Values(args), FieldLabels) <==> Field(args, "name") == ""
  {
    FieldLabelsDistinct();
    MissingLabelsSpec(Values(args), FieldLabels);
  }

  /**
   * With a field missing, the reply asks for all missing fields, joined with
   * " y ", and nothing is posted.
   */
  lemma MissingFieldsPrompt(args: Arguments, webhook: WebhookOutcome)
    requires exists k :: 0 <= k < 4 && Values(args)[k] == ""
    ensures var missing := MissingLabels(Values(args), FieldLabels);
      && missing != []
      && PurchaseIntent(args, webhook) == IntentResult(PromptPrefix + PyStrings.Join(missing, " y ") + ".", None)
  {
    var k :| 0 <= k < 4 && Values(args)[k] == "";
    FieldLabelsDistinct();
    MissingLabelsSpec(Values(args), FieldLabels);
    assert FieldLabels[k] in MissingLabels(Values(args), FieldLabels);
  }

  /** Called with `{}` (as after a failed JSON decode), the tool asks for all four fields, in order. */
  lemma EmptyArgumentsAskForEverything(webhook: WebhookOutcome)
    ensures PurchaseIntent(map[], webhook) == IntentResult(Prompt(FieldLabels), None)
    ensures Prompt(FieldLabels) == PromptPrefix + FieldLabels[0] + " y " + FieldLabels[1]
      + " y " + FieldLabels[2] + " y " + FieldLabels[3] + "."
  {
    assert Values(map[]) == ["", "", "", ""];
    EveryLabelMissing(FieldLabels);
    PromptOfFour(FieldLabels);
  }

  /** Four empty values report every label. */
  lemma EveryLabelMissing(labels: seq<string>)
    requires |labels| == 4
    ensures MissingLabels(["", "", "", ""], labels) == labels
  {
    var values := ["", "", "", ""];
    MissingFourLabels(values, labels);
    assert [labels[0]] + [labels[1]] + [labels[2]] + [labels[3]] == labels;
  }

  /** The prompt for four labels, written out. */
  lemma PromptOfFour(labels: seq<string>)
    requires |labels| == 4
    ensures Prompt(labels) == PromptPrefix + labels[0] + " y " + labels[1]
      + " y " + labels[2] + " y " + labels[3] + "."
  {
    var sep := LabelSeparator;
    var r1 := labels[1..];
    var r2 := r1[1..];
    assert r2[1..] == [labels[3]];
    assert PyStrings.Join(r2, sep) == labels[2] + sep + labels[3];
    assert PyStrings.Join(r1, sep) == labels[1] + sep + (labels[2] + sep + labels[3]);
    assert PyStrings.Join(labels, sep) == labels[0] + sep + (labels[1] + sep + (labels[2] + sep + labels[3]));
  }

  /**
   * With every field present, the payload has exactly the required keys, the
   * name decoded and the other values as given, and the reply is the one the
   * webhook outcome selects.
   */
  lemma CompleteArgumentsPost(args: Arguments, webhook: WebhookOutcome)
    requires forall k :: 0 <= k < 4 ==> Values(args)[k] != ""
    ensures var r := PurchaseIntent(args, webhook);
      && r.posted.Some?
      && r.posted.value.Keys == set k | k in RequiredParameters
      && r.posted.value["name"] == PercentDecoding.Unquote(PercentDecoding.Unquote(Field(args, "name")))
      && (forall k :: k in RequiredParameters[1..] ==> r.posted.value[k] == Field(args, k))
      && r.reply == WebhookReply(webhook)
  {
    var values := Values(args);
    assert PurchaseIntent(args, webhook) == IntentResult(WebhookReply(webhook), Some(Payload(values))) by {
      MissingFourLabels(values, FieldLabels);
    }
    PayloadKeys(values);
    PayloadEntries(args);
  }

  /** The payload carries the decoded name and the other arguments unchanged. */
  lemma PayloadEntries(args: Arguments)
    ensures Payload(Values(args))["name"] == PercentDecoding.Unquote(PercentDecoding.Unquote(Field(args, "name")))
    ensures forall k :: k in RequiredParameters[1..] ==> Payload(Values(args))[k] == Field(args, k)
  {
    var rest := RequiredParameters[1..];
    assert rest == ["email", "phone_number", "conversation_summary"];
  }

  /** The payload's keys are the schema's required parameters. */
  lemma PayloadKeys(values: seq<string>)
    requires |values| == 4
    ensures Payload(values).Keys == set k | k in RequiredParameters
  {
  }

  /**
   * The three kinds of webhook outcome give replies the assistant can tell
   * apart: success, a rejection carrying the response body, and a transport
   * failure carrying the exception text.
   */
  lemma WebhookRepliesDiffer(status: int, text: string, reason: string)
    ensures WebhookReply(HttpResponse(200, text)) == SuccessMessage
    ensures status != 200 ==> WebhookReply(HttpResponse(status, text)) == RejectedPrefix + text
    ensures WebhookReply(RequestFailed(reason)) == TransportPrefix + reason
    ensures SuccessMessage != RejectedPrefix + text
    ensures SuccessMessage != TransportPrefix + reason
    ensures RejectedPrefix + text != TransportPrefix + reason
  {
    assert (RejectedPrefix + text)[0] == 'E';
    assert (TransportPrefix + reason)[0] == 'N';
    assert SuccessMessage[0] == 'T';
  }

  /** The schema's `required` list names exactly the keys the function checks and posts. */
  lemma RequiredMatchesChecks(args: Arguments)
    ensures forall k :: k in RequiredParameters <==> k in Payload(Values(args))
    ensures |RequiredParameters| == |FieldLabels|
  {
  }
}
