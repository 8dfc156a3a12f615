/**
 * The directory page of the business spider: one record per business block,
 * either emitted at once (no website) or handed on, with the partly filled
 * record, to a follow-up request whose callback adds the phone numbers
 * found on the business's own site.
 */
module Directory {
  import opened Wrappers
  import opened PhoneScan

  /** What the selectors read from one business block; each is `None` when absent. */
  datatype Block = Block(name: Option<string>, industry: Option<string>, offer: Option<string>, website: Option<string>)

  /**
   * The `phone` field of the record: never assigned yet, assigned `None`
   * (no website), or the set of numbers found on the site.
   */
  datatype PhoneField = Unset | NoPhone | Phones(numbers: set<string>)

  /** The business record with its five fields. */
  datatype Item = Item(name: Option<string>, industry: Option<string>, offer: Option<string>,
                       website: Option<string>, phone: PhoneField)

  /** What the directory callback yields for a block: a finished record, or a request to follow. */
  datatype Output = Emit(item: Item) | FollowUp(url: string, carried: Item)

  /** The record holding a block's four fields and the given phone field. */
  function Record(b: Block, phone: PhoneField): Item
  {
    Item(b.name, b.industry, b.offer, b.website, phone)
  }

  /**
   * The phone field left in the one reused record after the given blocks:
   * it is only ever assigned for a block without a website, so it is `None`
   * once such a block has been seen and unassigned before.
   */
  function CarriedPhone(blocks: seq<Block>): PhoneField
  {
    if blocks == [] then Unset
    else if blocks[|blocks| - 1].website.None? then NoPhone
    else CarriedPhone(blocks[..|blocks| - 1])
  }

  /** What the callback yields for block `k`. */
  function OutputAt(blocks: seq<Block>, k: nat): Output
    requires k < |blocks|
  {
    var b := blocks[k];
    if b.website.None? then Emit(Record(b, NoPhone))
    else FollowUp(b.website.value, Record(b, CarriedPhone(blocks[..k])))
  }

  /**
   * The directory callback: the block loop over one reused record. Each
   * block's four fields overwrite the record's; a block without a website
   * sets the phone to `None` and yields the record, any other block yields a
   * follow-up request for its website carrying the record as it stands.
   */
  method ParseDirectory(blocks: seq<Block>) returns (out: seq<Output>)
    ensures |out| == |blocks|
    ensures forall k :: 0 <= k < |blocks| ==> out[k] == OutputAt(blocks, k)
    ensures forall k :: 0 <= k < |blocks| ==> (out[k].Emit? <==> blocks[k].website.None?)
    ensures forall k :: 0 <= k < |blocks| && blocks[k].website.None? ==> out[k] == Emit(Record(blocks[k], NoPhone))
    ensures forall k :: 0 <= k < |blocks| && blocks[k].website.Some? ==>
      out[k].url == blocks[k].website.value && out[k].carried.(phone := Unset) == Record(blocks[k], Unset)
  {
    var item := Item(None, None, None, None, Unset);
    out := [];
    var i := 0;
    while i < |blocks|
      invariant 0 <= i <= |blocks|
      invariant |out| == i
      invariant forall k :: 0 <= k < i ==> out[k] == OutputAt(blocks, k)
      invariant item.phone == CarriedPhone(blocks[..i])
    {
      var b := blocks[i];
      assert blocks[..i + 1][..i] == blocks[..i];
      item := item.(name := b.name, industry := b.industry, offer := b.offer, website := b.website);
      if item.website.Some? {
        out := out + [FollowUp(item.website.value, item)];
      } else {
        item := item.(phone := NoPhone);
        out := out + [Emit(item)];
      }
      i := i + 1;
    }
  }

  /**
   * The follow-up callback: the record it was handed, with the set of
   * normalised numbers found on the site's text nodes as its phone field.
   */
  function FinishFollowUp(carried: Item, nodes: seq<string>): Item
  {
    carried.(phone := Phones(ExtractPhones(nodes)))
  }

  /** The phone field is carried `None` exactly when an earlier block had no website. */
  lemma {:induction false} CarriedPhoneIff(blocks: seq<Block>)
    ensures CarriedPhone(blocks) == NoPhone <==> exists j :: 0 <= j < |blocks| && blocks[j].website.None?
    ensures CarriedPhone(blocks) != NoPhone ==> CarriedPhone(blocks) == Unset
  {
    if blocks != [] {
      var n := |blocks| - 1;
      CarriedPhoneIff(blocks[..n]);
      if blocks[n].website.None? {
      } else {
        forall j | 0 <= j < n ensures blocks[..n][j] == blocks[j] { }
      }
    }
  }

  /**
   * Whatever stale phone value the handed-on record carries, the record the
   * follow-up finally yields is the block's four fields with the site's
   * phone numbers.
   */
  lemma FollowUpRecord(blocks: seq<Block>, k: nat, nodes: seq<string>)
    requires k < |blocks| && blocks[k].website.Some?
    ensures OutputAt(blocks, k).FollowUp?
    ensures FinishFollowUp(OutputAt(blocks, k).carried, nodes) == Record(blocks[k], Phones(ExtractPhones(nodes)))
  {
  }
}
