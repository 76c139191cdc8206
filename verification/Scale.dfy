/**
  The fixed-width little-endian layouts of the PSP22 inputs. `read_as` reads as many
  bytes as the input's type is wide, whatever follows them, and fails when memory ends
  before that.
 */
module Scale {
  import opened Numbers

  newtype byte = b: int | 0 <= b < 256

  function Pow256(width: nat): nat {
    if width == 0 then 1 else 256 * Pow256(width - 1)
  }

  lemma Pow256Of16()
    ensures Pow256(16) == U128_MAX + 1
  {
    assert Pow256(4) == 0x1_0000_0000;
    assert Pow256(8) == 0x1_0000_0000 * Pow256(4);
    assert Pow256(12) == 0x1_0000_0000 * Pow256(8);
    assert Pow256(16) == 0x1_0000_0000 * Pow256(12);
  }

  function Encode(n: nat, width: nat): (bytes: seq<byte>)
    ensures |bytes| == width
  {
    if width == 0 then [] else [(n % 256) as byte] + Encode(n / 256, width - 1)
  }

  function Decode(bytes: seq<byte>): nat {
    if bytes == [] then 0 else bytes[0] as nat + 256 * Decode(bytes[1..])
  }

  lemma {:induction false} DecodeEncode(n: nat, width: nat)
    requires n < Pow256(width)
    ensures Decode(Encode(n, width)) == n
  {
    if width > 0 {
      DecodeEncode(n / 256, width - 1);
      assert Encode(n, width)[1..] == Encode(n / 256, width - 1);
    }
  }

  lemma LowestByte(b: nat, rest: nat)
    requires b < 256
    ensures (b + 256 * rest) % 256 == b && (b + 256 * rest) / 256 == rest
  {
  }

  lemma {:induction false} EncodeDecode(bytes: seq<byte>)
    ensures Decode(bytes) < Pow256(|bytes|)
    ensures Encode(Decode(bytes), |bytes|) == bytes
  {
    if bytes != [] {
      EncodeDecode(bytes[1..]);
      LowestByte(bytes[0] as nat, Decode(bytes[1..]));
      assert bytes == [bytes[0]] + bytes[1..];
    }
  }

  /** Field widths of the input structures. */
  datatype Layout = AssetOnly | AssetOwner | AssetOwnerSpender | AssetAccountValue | AssetFromToValue {
    function Widths(): seq<nat> {
      match this
      case AssetOnly => [4]
      case AssetOwner => [4, 32]
      case AssetOwnerSpender => [4, 32, 32]
      case AssetAccountValue => [4, 32, 16]
      case AssetFromToValue => [4, 32, 32, 16]
    }
  }

  function Size(widths: seq<nat>): nat {
    if widths == [] then 0 else widths[0] + Size(widths[1..])
  }

  predicate FieldsFit(widths: seq<nat>, fields: seq<nat>) {
    |fields| == |widths| && forall i :: 0 <= i < |widths| ==> fields[i] < Pow256(widths[i])
  }

  function EncodeFields(widths: seq<nat>, fields: seq<nat>): (bytes: seq<byte>)
    requires |fields| == |widths|
    ensures |bytes| == Size(widths)
  {
    if widths == [] then [] else Encode(fields[0], widths[0]) + EncodeFields(widths[1..], fields[1..])
  }

  function DecodeFields(widths: seq<nat>, bytes: seq<byte>): (fields: seq<nat>)
    requires Size(widths) <= |bytes|
    ensures |fields| == |widths|
  {
    if widths == [] then []
    else [Decode(bytes[..widths[0]])] + DecodeFields(widths[1..], bytes[widths[0]..])
  }

  function ReadAs(layout: Layout, memory: seq<byte>): (r: Option<seq<nat>>)
    ensures r.Some? ==> |r.value| == |layout.Widths()|
  {
    if |memory| < Size(layout.Widths()) then None else Some(DecodeFields(layout.Widths(), memory))
  }

  /** Byte k of an encoded number is its k-th digit to the base 256, the lowest first. */
  lemma {:induction false} LittleEndian(n: nat, width: nat, k: nat)
    requires k < width
    ensures Pow256(k) > 0
    ensures Encode(n, width)[k] as nat == (n / Pow256(k)) % 256
  {
    if k == 0 {
      assert n / 1 == n;
    } else {
      LittleEndian(n / 256, width - 1, k - 1);
      DivideTwice(n, 256, Pow256(k - 1));
    }
  }

  /** The three fields at the start of memory, each in its own width. */
  predicate ThreeFields(memory: seq<byte>, id: nat, account: nat, value: nat) {
    && 52 <= |memory| && id <= U32_MAX && account < Pow256(32) && value <= U128_MAX
    && memory[..4] == Encode(id, 4) && memory[4..36] == Encode(account, 32) && memory[36..52] == Encode(value, 16)
  }

  predicate FourFields(memory: seq<byte>, id: nat, from: nat, to: nat, value: nat) {
    && 84 <= |memory| && id <= U32_MAX && from < Pow256(32) && to < Pow256(32) && value <= U128_MAX
    && memory[..4] == Encode(id, 4) && memory[4..36] == Encode(from, 32)
    && memory[36..68] == Encode(to, 32) && memory[68..84] == Encode(value, 16)
  }

  lemma ThreeFieldsRead(memory: seq<byte>, id: nat, account: nat, value: nat)
    requires ThreeFields(memory, id, account, value)
    ensures ReadAs(AssetAccountValue, memory) == Some([id, account, value])
  {
    Pow256Of16();
    LayoutSizes();
    var widths := AssetAccountValue.Widths();
    DecodeEncode(id, 4);
    DecodeEncode(account, 32);
    DecodeEncode(value, 16);
    assert widths[1..] == [32, 16] && [32, 16][1..] == [16] && [16][1..] == [];
    var second, third := memory[4..], memory[36..];
    assert second[..32] == memory[4..36] && second[32..] == third && third[..16] == memory[36..52];
    assert DecodeFields([16], third) == [value] + DecodeFields([], third[16..]);
    assert DecodeFields([32, 16], second) == [account] + DecodeFields([16], third);
    assert DecodeFields(widths, memory) == [id] + DecodeFields([32, 16], second);
    assert DecodeFields(widths, memory) == [id, account, value];
  }

  lemma FourFieldsRead(memory: seq<byte>, id: nat, from: nat, to: nat, value: nat)
    requires FourFields(memory, id, from, to, value)
    ensures ReadAs(AssetFromToValue, memory) == Some([id, from, to, value])
  {
    LayoutSizes();
    var widths := AssetFromToValue.Widths();
    DecodeEncode(id, 4);
    DecodeEncode(from, 32);
    assert widths[1..] == [32, 32, 16] && [32, 32, 16][1..] == [32, 16];
    var second, third := memory[4..], memory[36..];
    assert second[..32] == memory[4..36] && second[32..] == third;
    assert DecodeFields([32, 32, 16], second) == [from] + DecodeFields([32, 16], third);
    assert DecodeFields(widths, memory) == [id] + DecodeFields([32, 32, 16], second);
    TwoFieldsRead(third, to, value);
    assert third[..32] == memory[36..68] && third[32..48] == memory[68..84];
    assert DecodeFields(widths, memory) == [id, from, to, value];
  }

  lemma TwoFieldsRead(memory: seq<byte>, account: nat, value: nat)
    requires 48 <= |memory| && account < Pow256(32) && value <= U128_MAX
    requires memory[..32] == Encode(account, 32) && memory[32..48] == Encode(value, 16)
    ensures Size([32, 16]) == 48
    ensures DecodeFields([32, 16], memory) == [account, value]
  {
    Pow256Of16();
    DecodeEncode(account, 32);
    DecodeEncode(value, 16);
    assert [32, 16][1..] == [16] && [16][1..] == [] && Size([16]) == 16;
    var second := memory[32..];
    assert second[..16] == memory[32..48];
    assert DecodeFields([16], second) == [value] + DecodeFields([], second[16..]);
    assert DecodeFields([32, 16], memory) == [account] + DecodeFields([16], second);
  }

  lemma IdRead(memory: seq<byte>, id: nat)
    requires 4 <= |memory| && id <= U32_MAX && memory[..4] == Encode(id, 4)
    ensures ReadAs(AssetOnly, memory) == Some([id])
  {
    LayoutSizes();
    DecodeEncode(id, 4);
    var widths := AssetOnly.Widths();
    assert widths[1..] == [];
    assert DecodeFields(widths, memory) == [id] + DecodeFields([], memory[4..]);
    assert DecodeFields(widths, memory) == [id];
  }

  lemma OwnerRead(memory: seq<byte>, id: nat, owner: nat)
    requires 36 <= |memory| && id <= U32_MAX && owner < Pow256(32)
    requires memory[..4] == Encode(id, 4) && memory[4..36] == Encode(owner, 32)
    ensures ReadAs(AssetOwner, memory) == Some([id, owner])
  {
    LayoutSizes();
    DecodeEncode(id, 4);
    DecodeEncode(owner, 32);
    var widths, second := AssetOwner.Widths(), memory[4..];
    assert widths[1..] == [32] && [32][1..] == [] && second[..32] == memory[4..36];
    assert DecodeFields([32], second) == [owner] + DecodeFields([], second[32..]);
    assert DecodeFields(widths, memory) == [id] + DecodeFields([32], second);
    assert DecodeFields(widths, memory) == [id, owner];
  }

  lemma OwnerSpenderRead(memory: seq<byte>, id: nat, owner: nat, spender: nat)
    requires 68 <= |memory| && id <= U32_MAX && owner < Pow256(32) && spender < Pow256(32)
    requires memory[..4] == Encode(id, 4) && memory[4..36] == Encode(owner, 32) && memory[36..68] == Encode(spender, 32)
    ensures ReadAs(AssetOwnerSpender, memory) == Some([id, owner, spender])
  {
    LayoutSizes();
    OwnerRead(memory, id, owner);
    LeadingFields(memory);
    DecodeEncode(spender, 32);
    var widths, second, third := AssetOwnerSpender.Widths(), memory[4..], memory[36..];
    assert widths[1..] == [32, 32] && [32, 32][1..] == [32] && [32][1..] == [];
    assert second[32..] == third && third[..32] == memory[36..68];
    assert DecodeFields([32], third) == [spender] + DecodeFields([], third[32..]);
    assert DecodeFields([32, 32], second)[1] == DecodeFields([32], third)[0];
    assert DecodeFields(widths, memory)[2] == DecodeFields([32, 32], second)[1];
    assert DecodeFields(widths, memory) == [id, owner, spender];
  }

  /** The query inputs are prefixes of one another and read the same leading fields. */
  lemma LeadingFields(memory: seq<byte>)
    requires ReadAs(AssetOwnerSpender, memory).Some?
    ensures var fields := ReadAs(AssetOwnerSpender, memory).value;
            && ReadAs(AssetOnly, memory) == Some([fields[0]])
            && ReadAs(AssetOwner, memory) == Some([fields[0], fields[1]])
  {
    LayoutSizes();
    var whole, pair, single := AssetOwnerSpender.Widths(), AssetOwner.Widths(), AssetOnly.Widths();
    assert whole[1..] == [32, 32] && pair[1..] == [32] && single[1..] == [] && [32][1..] == [];
    var tail := memory[4..];
    assert DecodeFields([32], tail) == [Decode(tail[..32])] + DecodeFields([], tail[32..]);
    assert DecodeFields(single, memory) == [Decode(memory[..4])] + DecodeFields([], tail);
    assert DecodeFields(pair, memory) == [Decode(memory[..4])] + DecodeFields([32], tail);
    assert DecodeFields(whole, memory) == [Decode(memory[..4])] + DecodeFields([32, 32], tail);
    assert DecodeFields([32, 32], tail)[0] == Decode(tail[..32]);
    var fields := DecodeFields(whole, memory);
    assert DecodeFields(single, memory) == [fields[0]];
    assert DecodeFields(pair, memory) == [fields[0], fields[1]];
  }

  lemma {:induction false} FieldsRoundTrip(widths: seq<nat>, fields: seq<nat>, rest: seq<byte>)
    requires FieldsFit(widths, fields)
    ensures DecodeFields(widths, EncodeFields(widths, fields) + rest) == fields
  {
    if widths != [] {
      var first := Encode(fields[0], widths[0]);
      var tail := EncodeFields(widths[1..], fields[1..]);
      assert EncodeFields(widths, fields) + rest == first + (tail + rest);
      assert (first + (tail + rest))[..widths[0]] == first;
      assert (first + (tail + rest))[widths[0]..] == tail + rest;
      DecodeEncode(fields[0], widths[0]);
      FieldsRoundTrip(widths[1..], fields[1..], rest);
    }
  }

  lemma {:induction false} BytesRoundTrip(widths: seq<nat>, bytes: seq<byte>)
    requires Size(widths) <= |bytes|
    ensures FieldsFit(widths, DecodeFields(widths, bytes))
    ensures EncodeFields(widths, DecodeFields(widths, bytes)) == bytes[..Size(widths)]
  {
    if widths != [] {
      var fields := DecodeFields(widths, bytes);
      EncodeDecode(bytes[..widths[0]]);
      BytesRoundTrip(widths[1..], bytes[widths[0]..]);
      assert fields[1..] == DecodeFields(widths[1..], bytes[widths[0]..]);
      assert bytes[..Size(widths)] == bytes[..widths[0]] + bytes[widths[0]..][..Size(widths[1..])];
    }
  }

  /**
    Reading an encoded input gives it back, whatever bytes follow; and what is read
    encodes to exactly the bytes consumed, so nothing is read two ways.
   */
  lemma InputRoundTrip(layout: Layout, fields: seq<nat>, rest: seq<byte>, memory: seq<byte>)
    requires FieldsFit(layout.Widths(), fields)
    ensures ReadAs(layout, EncodeFields(layout.Widths(), fields) + rest) == Some(fields)
    ensures ReadAs(layout, memory).Some? ==>
              && FieldsFit(layout.Widths(), ReadAs(layout, memory).value)
              && EncodeFields(layout.Widths(), ReadAs(layout, memory).value) == memory[..Size(layout.Widths())]
  {
    FieldsRoundTrip(layout.Widths(), fields, rest);
    if Size(layout.Widths()) <= |memory| {
      BytesRoundTrip(layout.Widths(), memory);
    }
  }

  /** The widths in bytes of the inputs: 84 for transfer-from. */
  lemma LayoutSizes()
    ensures Size(AssetOnly.Widths()) == 4
    ensures Size(AssetOwner.Widths()) == 36
    ensures Size(AssetOwnerSpender.Widths()) == 68
    ensures Size(AssetAccountValue.Widths()) == 52
    ensures Size(AssetFromToValue.Widths()) == 84
  {
  }
}
