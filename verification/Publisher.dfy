/** The publisher: one buffer, overwritten by every message and handed to the data writer. */
module Publishing {
  import opened Compiler
  import opened Translation
  import opened RoundTrip
  import opened Correspondence
  import opened History
  import opened DynamicDataBuffer
  import opened ToDds
  import X = XTypes
  import D = Dds

  predicate HasMembers(t: X.XType) {
    X.Resolve(t).Struct? || X.Resolve(t).Union?
  }

  /** Every sample sent holds its message, and reads back as what is received of it. */
  ghost predicate Carried(t: X.XType, sent: seq<D.DData>, accepted: seq<X.Value>)
    requires X.Supported(t)
  {
    && |sent| == |accepted|
    && forall i | 0 <= i < |sent| ::
         && X.WellTyped(t, accepted[i]) && D.Conforms(Compile(t), sent[i])
         && Holds(t, accepted[i], sent[i], true) && Read(t, sent[i]) == Received(t, accepted[i])
  }

  lemma OneMoreCarried(t: X.XType, sent: seq<D.DData>, accepted: seq<X.Value>, prior: D.DData, m: X.Value)
    requires X.Supported(t) && Carried(t, sent, accepted) && X.WellTyped(t, m) && D.Conforms(Compile(t), prior)
    ensures Carried(t, sent + [Write(t, m, prior)], accepted + [m])
  {
    WriteConforms(t, m, prior);
    WrittenHolds(t, m, prior);
    ReadAfterWrite(t, m, prior);
  }

  class Publisher {
    const messageType: X.XType
    const dynamicData: DynamicData
    var sent: seq<D.DData>            // the samples the data writer accepted
    ghost var converted: seq<X.Value> // every message converted so far
    ghost var accepted: seq<X.Value>  // the messages of the samples in `sent`

    ghost predicate Valid()
      reads this, dynamicData
    {
      && X.Supported(messageType) && dynamicData.Valid() && dynamicData.typ == Compile(messageType)
      && (forall m | m in converted :: X.WellTyped(messageType, m))
      && dynamicData.data == WriteAll(messageType, converted, D.Fresh(Compile(messageType)))
      && Carried(messageType, sent, accepted)
    }

    constructor (t: X.XType)
      requires X.Supported(t)
      ensures Valid() && messageType == t && sent == [] && fresh(dynamicData)
    {
      messageType, sent, converted, accepted := t, [], [], [];
      var builder := GetBuilder(t);
      dynamicData := new DynamicData(builder);
    }

    /** `writable` is whether the data writer takes the sample. */
    method Publish(message: X.Value, writable: bool) returns (ok: bool)
      requires Valid() && X.WellTyped(messageType, message)
      modifies this, dynamicData
      ensures Valid()
      ensures ok <==> HasMembers(messageType) && writable
      ensures sent == if ok then old(sent) + [dynamicData.data] else old(sent)
      ensures accepted == if ok then old(accepted) + [message] else old(accepted)
      ensures HasMembers(messageType) ==>
                D.Visible(dynamicData.data) == D.Visible(Element(messageType, message))
    {
      ghost var before := dynamicData.data;
      ok := XTypesToFastDds(messageType, message, dynamicData);
      if ok {
        WriteOneMore(messageType, converted, message, D.Fresh(Compile(messageType)));
        converted := converted + [message];
        WriteForgets(messageType, message, before, D.Fresh(Compile(messageType)));
        ok := writable;
        if ok {
          OneMoreCarried(messageType, sent, accepted, before, message);
          sent := sent + [dynamicData.data];
          accepted := accepted + [message];
        }
      }
    }
  }
}
