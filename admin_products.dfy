/**
 * The product editor of frontend/src/pages/AdminProducts.jsx: the blank
 * draft, the edits to its offer rows and its specification map, and the
 * "found" column of the product table.
 *
 * Every handler builds the next draft from the current one (what it hands to
 * `setCurrentProduct`); form fields hold the strings typed into them. The
 * specification map is an object: (key, value) pairs in insertion order.
 */
module AdminProducts {
  import opened Wrappers
  import opened JsObject
  import opened ProductModel

  datatype OfferRow = OfferRow(marketplace: string, price: string, productUrl: string, isAvailable: bool)

  /** The three row fields the form edits. */
  datatype Field = MarketplaceField | PriceField | ProductUrlField

  datatype ImageRow = ImageRow(publicId: string, url: string)

  datatype Draft = Draft(
    name: string,
    gemProductId: string,
    gemPrice: string,
    description: string,
    category: string,
    brand: string,
    comparisonType: string,
    images: seq<ImageRow>,
    marketplacePrices: seq<OfferRow>,
    specs: seq<(string, string)>)

  function InitialProductState(): Draft {
    Draft("", "", "", "", "Electronics", "", "Direct Match",
      [ImageRow("sample", "")],
      [OfferRow("Amazon", "", "", true), OfferRow("Flipkart", "", "", true)],
      [("Model", ""), ("Warranty", ""), ("Color", "")])
  }

  /** The blank draft's two offer rows: Amazon and Flipkart, available, with no price. */
  lemma InitialOffers()
    ensures var rows := InitialProductState().marketplacePrices;
      && |rows| == 2
      && (forall i :: 0 <= i < 2 ==> rows[i].isAvailable && rows[i].price == "")
      && ParseMarketplace(rows[0].marketplace) == Some(Amazon)
      && ParseMarketplace(rows[1].marketplace) == Some(Flipkart)
  {
    var rows := InitialProductState().marketplacePrices;
    EnumRoundTrips(DirectMatch, Amazon, Active);
    EnumRoundTrips(DirectMatch, Flipkart, Active);
    assert rows[0].marketplace == MarketplaceName(Amazon);
    assert rows[1].marketplace == MarketplaceName(Flipkart);
  }

  /** The blank draft's category and comparison type are Electronics and Direct Match, values the schema accepts. */
  lemma InitialEnums()
    ensures ParseCategory(InitialProductState().category) == Some(Electronics)
    ensures ParseComparisonType(InitialProductState().comparisonType) == Some(DirectMatch)
  {
    var d := InitialProductState();
    assert d.category == CategoryName(Electronics) by {
      assert CategoryIndex(Electronics) == 4;
    }
    CategoryRoundTrip(Electronics, d.category);
    EnumRoundTrips(DirectMatch, Amazon, Active);
    assert d.comparisonType == ComparisonTypeName(DirectMatch);
  }

  /** The blank specification map: Model, Warranty and Color, each empty, and nothing else. */
  lemma InitialSpecs(k: string)
    ensures DistinctKeys(InitialProductState().specs)
    ensures Lookup(InitialProductState().specs, k) == if k == "Model" || k == "Warranty" || k == "Color" then Some("") else None
  {
  }

  // ---------------------------------------------------------------------------
  // Offer rows

  function FieldOf(row: OfferRow, f: Field): string {
    match f
    case MarketplaceField => row.marketplace
    case PriceField => row.price
    case ProductUrlField => row.productUrl
  }

  /** `row[field] = value`. */
  function WithField(row: OfferRow, f: Field, value: string): (r: OfferRow)
    ensures FieldOf(r, f) == value
    ensures forall g :: g != f ==> FieldOf(r, g) == FieldOf(row, g)
    ensures r.isAvailable == row.isAvailable
  {
    match f
    case MarketplaceField => row.(marketplace := value)
    case PriceField => row.(price := value)
    case ProductUrlField => row.(productUrl := value)
  }

  /**
   * `handleMarketplaceChange`: a copy of the rows with field `f` of row
   * `index` set; the other fields of that row and every other row are kept.
   */
  method HandleMarketplaceChange(rows: seq<OfferRow>, index: nat, f: Field, value: string)
    returns (updatedPrices: seq<OfferRow>)
    requires index < |rows|
    ensures |updatedPrices| == |rows|
    ensures forall i :: 0 <= i < |rows| && i != index ==> updatedPrices[i] == rows[i]
    ensures FieldOf(updatedPrices[index], f) == value
    ensures forall g :: g != f ==> FieldOf(updatedPrices[index], g) == FieldOf(rows[index], g)
    ensures updatedPrices[index].isAvailable == rows[index].isAvailable
  {
    var copy := new OfferRow[|rows|](i requires 0 <= i < |rows| => rows[i]);
    copy[index] := WithField(copy[index], f, value);
    updatedPrices := copy[..];
  }

  /** The row `handleAddMarketplace` appends. */
  const BlankRow: OfferRow := OfferRow("", "", "", true)

  function HandleAddMarketplace(rows: seq<OfferRow>): seq<OfferRow> {
    rows + [BlankRow]
  }

  /** One more row, blank and available, at the end; the earlier rows are kept in place. */
  lemma AddMarketplaceMeaning(rows: seq<OfferRow>)
    ensures |HandleAddMarketplace(rows)| == |rows| + 1
    ensures HandleAddMarketplace(rows)[..|rows|] == rows
    ensures HandleAddMarketplace(rows)[|rows|].isAvailable
    ensures forall f :: FieldOf(HandleAddMarketplace(rows)[|rows|], f) == ""
  {
    assert HandleAddMarketplace(rows)[..|rows|] == rows;
  }

  /** `rows.filter((_, i) => i !== index)`, the positions counted from `offset`. */
  function FilterIndex(rows: seq<OfferRow>, index: int, offset: nat): seq<OfferRow>
    decreases |rows|
  {
    if rows == [] then []
    else (if offset == index then [] else [rows[0]]) + FilterIndex(rows[1..], index, offset + 1)
  }

  function HandleRemoveMarketplace(rows: seq<OfferRow>, index: int): seq<OfferRow> {
    FilterIndex(rows, index, 0)
  }

  /** Exactly the row at `index` goes and the others keep their order; an index outside the list removes nothing. */
  lemma RemoveMarketplaceMeaning(rows: seq<OfferRow>, index: int)
    ensures 0 <= index < |rows| ==> HandleRemoveMarketplace(rows, index) == rows[..index] + rows[index + 1..]
    ensures !(0 <= index < |rows|) ==> HandleRemoveMarketplace(rows, index) == rows
  {
    FilterIndexSplit(rows, index, 0);
  }

  lemma {:induction false} FilterIndexSplit(rows: seq<OfferRow>, index: int, offset: nat)
    ensures offset <= index < offset + |rows| ==>
      FilterIndex(rows, index, offset) == rows[..index - offset] + rows[index - offset + 1..]
    ensures !(offset <= index < offset + |rows|) ==> FilterIndex(rows, index, offset) == rows
    decreases |rows|
  {
    if rows != [] {
      FilterIndexSplit(rows[1..], index, offset + 1);
      if offset == index {
      } else if offset < index < offset + |rows| {
        assert rows[..index - offset] == [rows[0]] + rows[1..][..index - offset - 1];
        assert rows[index - offset + 1..] == rows[1..][index - offset..];
      } else {
        assert [rows[0]] + rows[1..] == rows;
      }
    }
  }

  // ---------------------------------------------------------------------------
  // The specification map

  /**
   * `handleSpecChange(key, value, oldKey)` on a copy of the map: a renamed
   * entry loses its old key, then the key is assigned. Assigning to
   * `"__proto__"` when the copy has no own property of that name runs the
   * inherited setter, which ignores a string: nothing is added.
   */
  method HandleSpecChange(specs: seq<(string, string)>, key: string, value: string, oldKey: string)
    returns (newSpecs: seq<(string, string)>)
    requires DistinctKeys(specs)
    ensures DistinctKeys(newSpecs)
    ensures Lookup(newSpecs, key) == if key == ProtoKey && Lookup(specs, key).None? then None else Some(value)
    ensures oldKey != key ==> Lookup(newSpecs, oldKey).None?
    ensures forall k :: k != key && k != oldKey ==> Lookup(newSpecs, k) == Lookup(specs, k)
    ensures oldKey == key ==> Lookup(specs, key).Some? ==> |newSpecs| == |specs|
    ensures oldKey != key && Lookup(specs, oldKey).Some? && Lookup(specs, key).Some? ==> |newSpecs| == |specs| - 1
    ensures Lookup(specs, key).None? ==>
      newSpecs == Delete(specs, oldKey) + (if key == ProtoKey then [] else [(key, value)])
  {
    newSpecs := specs;
    if oldKey != key {
      newSpecs := Delete(newSpecs, oldKey);
      DeleteShrinks(specs, oldKey);
    }
    if key != ProtoKey || Lookup(newSpecs, key).Some? {
      newSpecs := Put(newSpecs, key, value);
    }
  }

  /** The property name whose inherited accessor is `Object.prototype.__proto__`. */
  const ProtoKey: string := "__proto__"

  /** Removing a present key of a map with distinct keys removes one entry. */
  lemma {:induction false} DeleteShrinks(o: seq<(string, string)>, k: string)
    requires DistinctKeys(o)
    ensures Lookup(o, k).Some? ==> |Delete(o, k)| == |o| - 1
  {
    if o != [] {
      DeleteShrinks(o[1..], k);
    }
  }

  /** `handleRemoveSpec(key)` on a copy of the map. */
  method HandleRemoveSpec(specs: seq<(string, string)>, key: string) returns (newSpecs: seq<(string, string)>)
    requires DistinctKeys(specs)
    ensures DistinctKeys(newSpecs)
    ensures Lookup(newSpecs, key).None?
    ensures forall k :: k != key ==> Lookup(newSpecs, k) == Lookup(specs, k)
    ensures |newSpecs| == if Lookup(specs, key).Some? then |specs| - 1 else |specs|
  {
    newSpecs := specs;
    newSpecs := Delete(newSpecs, key);
    DeleteShrinks(specs, key);
  }

  /** `{ ...specs, '': '' }`. */
  function HandleAddSpec(specs: seq<(string, string)>): seq<(string, string)> {
    Put(specs, "", "")
  }

  /** The empty key maps to the empty value, every other entry is kept, and a new empty row goes last. */
  lemma AddSpecMeaning(specs: seq<(string, string)>)
    ensures Lookup(HandleAddSpec(specs), "") == Some("")
    ensures forall k :: k != "" ==> Lookup(HandleAddSpec(specs), k) == Lookup(specs, k)
    ensures Lookup(specs, "").None? ==> HandleAddSpec(specs) == specs + [("", "")]
    ensures Lookup(specs, "").Some? ==> |HandleAddSpec(specs)| == |specs|
  {
  }

  // ---------------------------------------------------------------------------
  // The product table

  /** `marketplacePrices.filter(mp => mp.price > 0).length`. */
  function FoundCount(offers: seq<Offer>): nat {
    if offers == [] then 0 else (if offers[0].price > 0.0 then 1 else 0) + FoundCount(offers[1..])
  }

  /**
   * The count never exceeds the number of offers; it is all of them exactly
   * when every price is positive and none of them exactly when no price is,
   * whether or not the offer is available.
   */
  lemma {:induction false} FoundCountBounds(offers: seq<Offer>)
    ensures FoundCount(offers) <= |offers|
    ensures FoundCount(offers) == |offers| <==> forall i :: 0 <= i < |offers| ==> offers[i].price > 0.0
    ensures FoundCount(offers) == 0 <==> forall i :: 0 <= i < |offers| ==> offers[i].price <= 0.0
  {
    if offers != [] {
      FoundCountBounds(offers[1..]);
      assert forall i :: 1 <= i < |offers| ==> offers[i] == offers[1..][i - 1];
    }
  }

  /** Counting splits over the rows. */
  lemma {:induction false} FoundCountAppend(a: seq<Offer>, b: seq<Offer>)
    ensures FoundCount(a + b) == FoundCount(a) + FoundCount(b)
  {
    if a != [] {
      assert (a + b)[1..] == a[1..] + b;
      FoundCountAppend(a[1..], b);
    } else {
      assert a + b == b;
    }
  }
}
