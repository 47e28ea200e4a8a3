/** `create_payload`: the whole cleaned column becomes one inference request,
    the document `{"instances": [text, ...]}`. */
module Payload {
  import opened Ascii
  import opened Records
  import opened TextCleaning

  /** The request document; its one key `instances` holds the texts. */
  datatype Payload = Payload(instances: seq<string>)

  /** Projects the `processed_desc` column, in row order, into `instances`. */
  function CreatePayload(processed: seq<ProcessedRecord>): (p: Payload)
    ensures |p.instances| == |processed|
    ensures forall i :: 0 <= i < |processed| ==> p.instances[i] == processed[i].processedDesc
  {
    Payload(seq(|processed|, i requires 0 <= i < |processed| => processed[i].processedDesc))
  }

  /** Built from the frame the cleaning stage returns, the request has one
      instance per input record, in record order: instance `i` is the cleaned
      text of record `i`, and it is the empty string exactly when no token of
      that record's description survives; such a record is not skipped. */
  lemma PayloadFollowsRecords(processed: seq<ProcessedRecord>, data: seq<Record>, nlp: string -> seq<Token>)
    requires CleanedFrom(processed, data, nlp)
    ensures |CreatePayload(processed).instances| == |data|
    ensures forall i :: 0 <= i < |data| ==>
              CreatePayload(processed).instances[i] == CleanDoc(nlp(Lower(data[i].description)))
    ensures forall i :: 0 <= i < |data| ==>
              (CreatePayload(processed).instances[i] == "" <==>
               forall j :: 0 <= j < |nlp(Lower(data[i].description))| ==>
                 !Keep(nlp(Lower(data[i].description))[j]))
  {
  }
}
