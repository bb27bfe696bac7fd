/**
 The two checks on block maps (`docx_blocks_from_storage` and `validate_replacements`, src/oveo/docx.py) without their
 loops: which maps a stored attachment and which ones a response may carry.
 */
module DocxMaps {
  import opened DocxLinks
  import opened DocxDocument
  import opened DocxStored

  // ----- stored maps -----

  /** The link identifiers of all blocks, in order. */
  ghost function AllLinkIds(blocks: seq<Block>): seq<string> {
    if blocks == [] then []
    else
      var parts := Parse(blocks[|blocks| - 1].text);
      AllLinkIds(blocks[..|blocks| - 1]) + if parts.None? then [] else LinkIds(parts.value.links)
  }

  ghost predicate StoredBlock(b: Block, number: nat) {
    b.id == BlockId(number) && (b.kind == "paragraph" || b.kind == "table_cell") && b.text != "" && Parse(b.text).Some?
  }

  ghost predicate StoredFirst(blocks: seq<Block>, k: nat)
    requires k <= |blocks|
  {
    && (forall i :: 0 <= i < k ==> StoredBlock(blocks[i], i + 1))
    && Numbered(AllLinkIds(blocks[..k]))
  }

  ghost predicate Numbered(ids: seq<string>) {
    forall i :: 0 <= i < |ids| ==> ids[i] == LinkId(i + 1)
  }

  lemma NumberedAppend(a: seq<string>, b: seq<string>)
    ensures Numbered(a + b) <==> Numbered(a) && forall i :: 0 <= i < |b| ==> b[i] == LinkId(|a| + 1 + i)
  {
    hide LinkId;
    var all := a + b;
    assert forall i :: 0 <= i < |a| ==> all[i] == a[i];
    assert forall i :: 0 <= i < |b| ==> all[|a| + i] == b[i];
    if Numbered(all) {
      forall i | 0 <= i < |b|
        ensures b[i] == LinkId(|a| + 1 + i)
      {
        assert all[|a| + i] == LinkId(|a| + i + 1);
      }
    }
  }

  lemma {:induction false} CheckedFirst(blocks: seq<Block>, k: nat)
    requires k <= |blocks|
    ensures CheckStored(blocks, k).Some? <==> StoredFirst(blocks, k)
    ensures CheckStored(blocks, k).Some? ==> CheckStored(blocks, k).value == |AllLinkIds(blocks[..k])| + 1
  {
    hide BlockId, LinkId, Parse, Numbered;
    if k == 0 {
      NothingNumbered();
    } else {
      CheckedFirst(blocks, k - 1);
      assert blocks[..k][..k - 1] == blocks[..k - 1];
      var parts := Parse(blocks[k - 1].text);
      if parts.Some? {
        NumberedAppend(AllLinkIds(blocks[..k - 1]), LinkIds(parts.value.links));
        NumberedLinks(parts.value.links, |AllLinkIds(blocks[..k - 1])| + 1);
      } else {
        assert AllLinkIds(blocks[..k - 1]) + [] == AllLinkIds(blocks[..k - 1]);
      }
    }
  }

  lemma NumberedLinks(links: seq<(string, string)>, next: nat)
    ensures |LinkIds(links)| == |links|
    ensures (forall i :: 0 <= i < |links| ==> links[i].0 == LinkId(next + i)) <==> forall i :: 0 <= i < |LinkIds(links)| ==> LinkIds(links)[i] == LinkId(next + i)
  {
    hide LinkId;
    var ids := LinkIds(links);
    assert forall i :: 0 <= i < |links| ==> ids[i] == links[i].0;
    if forall i :: 0 <= i < |ids| ==> ids[i] == LinkId(next + i) {
      forall i | 0 <= i < |links|
        ensures links[i].0 == LinkId(next + i)
      {
        assert ids[i] == LinkId(next + i);
      }
    }
  }

  lemma NothingNumbered()
    ensures Numbered([])
  {
  }

  /** A stored map reloads exactly if its blocks are well formed and numbered, and its links number from one without a gap. */
  lemma ReloadsIff(blocks: seq<Block>)
    ensures Reloads(blocks) <==>
            && 0 < |blocks| <= 10_000
            && (forall i :: 0 <= i < |blocks| ==> StoredBlock(blocks[i], i + 1))
            && Numbered(AllLinkIds(blocks))
  {
    hide StoredBlock, Numbered, CheckStored;
    CheckedFirst(blocks, |blocks|);
    assert blocks[..|blocks|] == blocks;
  }

  // ----- replacement maps -----

  /** A response may replace the text of a block by a text that XML can hold and that keeps the block's links, visible. */
  ghost predicate MayReplace(b: Block, r: Replacement) {
    && r.id == b.id && |r.id| == 7 && r.id[0] == 'p' && (forall i :: 1 <= i < 7 ==> '0' <= r.id[i] <= '9')
    && (forall i :: 0 <= i < |r.text| ==> XmlLegal(r.text[i]))
    && Parse(b.text).Some? && Parse(r.text).Some?
    && var was, now := Parse(b.text).value.links, Parse(r.text).value.links;
    && |now| == |was|
    && (forall i :: 0 <= i < |now| ==> now[i].0 == was[i].0 && now[i].1 != "")
    && (forall i, j :: 0 <= i < j < |now| ==> now[i].0 != now[j].0)
  }

  lemma CheckIff(b: Block, r: Replacement)
    ensures CheckReplacement(b, r) == "" <==> MayReplace(b, r)
  {
    hide Parse, XmlLegal;
    assert |r.id| == 7 ==> forall i :: 1 <= i < 7 ==> r.id[1..][i - 1] == r.id[i];
    assert |r.id| == 7 ==> (IsDigits(r.id[1..]) <==> forall i :: 1 <= i < 7 ==> '0' <= r.id[i] <= '9') by {
      if |r.id| == 7 && forall i :: 1 <= i < 7 ==> '0' <= r.id[i] <= '9' {
        forall i | 0 <= i < |r.id[1..]|
          ensures '0' <= r.id[1..][i] <= '9'
        {
          assert r.id[1..][i] == r.id[i + 1];
        }
      }
    }
    if Parse(b.text).Some? && Parse(r.text).Some? {
      SameIds(Parse(r.text).value.links, Parse(b.text).value.links);
    }
  }

  lemma SameIds(now: seq<(string, string)>, was: seq<(string, string)>)
    ensures LinkIds(now) == LinkIds(was) <==> |now| == |was| && forall i :: 0 <= i < |now| ==> now[i].0 == was[i].0
    ensures Distinct(LinkIds(now)) <==> forall i, j :: 0 <= i < j < |now| ==> now[i].0 != now[j].0
  {
    var a, b := LinkIds(now), LinkIds(was);
    assert |a| == |now| && |b| == |was|;
    assert forall i :: 0 <= i < |now| ==> a[i] == now[i].0;
    assert forall i :: 0 <= i < |was| ==> b[i] == was[i].0;
    if a == b {
      forall i | 0 <= i < |now|
        ensures now[i].0 == was[i].0
      {
        assert a[i] == b[i];
      }
    }
    if Distinct(a) {
      forall i, j | 0 <= i < j < |now|
        ensures now[i].0 != now[j].0
      {
        assert a[i] != a[j];
      }
    }
  }

  /** A replacement list is accepted exactly if it replaces every block of the template, in order, as it may. */
  lemma ValidIff(blocks: seq<Block>, rs: seq<Replacement>)
    ensures ValidReplacements(blocks, rs) <==> |rs| == |blocks| && forall i :: 0 <= i < |rs| ==> MayReplace(blocks[i], rs[i])
  {
    hide CheckReplacement, MayReplace;
    forall i | 0 <= i < |rs| == |blocks|
      ensures CheckReplacement(blocks[i], rs[i]) == "" <==> MayReplace(blocks[i], rs[i])
    {
      CheckIff(blocks[i], rs[i]);
    }
  }
}
