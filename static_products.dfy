/** The product table bundled with the React client and its lookup by id.
    An image is the asset path the bundler resolves. */
module StaticProducts {
  import opened Base

  /** A labelled row of the specifications or the packaging. `caption` is
      the interface's `label` field; `label` is a reserved word in Dafny. */
  datatype Spec = Spec(caption: string, value: string)

  /** The long description of a product. The table names it, and `Text`
      spells it out, so that reasoning about ids and lists never has to
      unfold the prose. */
  datatype Blurb = DegletNourText | OliveOilText | HerbsSpicesText | CayenneText | CherryTomatoesText | PeanutsText

  function Text(b: Blurb): (r: string)
  {
    match b
    case DegletNourText => "Our Deglet Nour dates are harvested from the finest palm groves in Algeria. Known as the 'Queen of Dates,' Deglet Nour dates are prized for their delicate honey-like sweetness, soft texture, and golden amber color. Carefully processed and packaged to preserve freshness and quality during international shipping."
    case OliveOilText => "Premium quality extra virgin olive oil from carefully selected Algerian olive groves. Cold-pressed within 24 hours of harvest to preserve maximum flavor, aroma, and nutritional benefits. Rich in antioxidants and polyphenols, our olive oil delivers an authentic Mediterranean taste with fruity notes and a peppery finish."
    case HerbsSpicesText => "A comprehensive range of authentic Algerian herbs and spices including rosemary, thyme, fennel, cumin, coriander, and more. Sourced from the best growing regions of Algeria, our herbs and spices are carefully dried and processed to retain their natural essential oils, vibrant color, and intense flavor profile. Perfect for culinary and food manufacturing applications."
    case CayenneText => "High-quality ground cayenne pepper with intense heat and vibrant red color. Sourced from premium Algerian peppers, our cayenne is carefully dried and finely ground to deliver consistent heat levels (30,000-50,000 SHU). Perfect for adding spice and depth to any culinary creation, from hot sauces to seasoning blends."
    case CherryTomatoesText => "Fresh, vine-ripened cherry tomatoes with exceptional sweetness and flavor. Grown in Algeria's fertile agricultural regions under optimal sun exposure, our cherry tomatoes are hand-selected for their uniform size, bright color, and firm texture. Carefully packaged for export to maintain freshness during international shipping."
    case PeanutsText => "High-quality roasted and raw peanuts, carefully selected for international markets. Our peanuts are sourced from the finest growing regions in Algeria, ensuring superior taste, texture, and nutritional value. Available in various forms including in-shell, shelled, blanched, and roasted, suitable for snacking, confectionery, and food manufacturing."
  }

  datatype Product = Product(
    id: string,
    title: string,
    category: string,
    description: Blurb,
    image: string,
    specifications: seq<Spec>,
    packaging: seq<Spec>,
    certifications: seq<string>)

  const DegletNour: Product := Product(
    "deglet-nour-datesqq",
    "Premium Algerian Deglet Nour Dates",
    "Dates",
    DegletNourText,
    "@/assets/products/dates-pitted.jpeg",
    [Spec("SKU", "DT-DN-P01"),
     Spec("Variety", "Deglet Nour"),
     Spec("Grade", "Premium Grade A"),
     Spec("Origin", "Algeria"),
     Spec("Cultivation", "Conventional"),
     Spec("Processing", "Pitted & Sorted"),
     Spec("Moisture Content", "18-22%"),
     Spec("Availability", "Year-round")],
    [Spec("Consumer Packaging", "500g, 1kg, 5kg boxes"),
     Spec("Bulk Packaging", "10kg cartons"),
     Spec("20ft Container", "~12,000 kg"),
     Spec("40ft Container", "~24,000 kg")],
    ["ISO 22000", "HACCP", "Organic (Available on request)"])

  const OliveOil: Product := Product(
    "extra-virgin-olive-oil",
    "Extra Virgin Olive Oil",
    "Olive Oil",
    OliveOilText,
    "@/assets/products/olive-oil.jpeg",
    [Spec("SKU", "OO-EV-P01"),
     Spec("Type", "Extra Virgin Olive Oil"),
     Spec("Grade", "Premium"),
     Spec("Origin", "Algeria"),
     Spec("Cultivation", "Traditional Grove"),
     Spec("Extraction", "First Cold Press"),
     Spec("Acidity Level", "≤ 0.8%"),
     Spec("Peroxide Value", "≤ 20 meq O2/kg"),
     Spec("Availability", "Year-round")],
    [Spec("Consumer Packaging", "250ml, 500ml, 1L, 5L glass/PET bottles"),
     Spec("Bulk Packaging", "25L tins, 200L drums"),
     Spec("20ft Container", "~18,000 L"),
     Spec("40ft Container", "~36,000 L")],
    ["ISO 22000", "HACCP", "IOC Certified", "Organic (Available on request)"])

  const HerbsSpices: Product := Product(
    "herbs-spices-collection",
    "Herbs & Spices Collection",
    "Herbs & Spices",
    HerbsSpicesText,
    "@/assets/products/spices-collection.jpeg",
    [Spec("SKU", "HS-COL-P01"),
     Spec("Product Range", "Mixed Herbs & Spices"),
     Spec("Grade", "Food Grade"),
     Spec("Origin", "Algeria"),
     Spec("Cultivation", "Natural & Organic"),
     Spec("Processing", "Cleaned, Dried & Sorted"),
     Spec("Moisture Content", "8-12%"),
     Spec("Availability", "Year-round")],
    [Spec("Consumer Packaging", "50g, 100g, 250g, 500g bags/jars"),
     Spec("Bulk Packaging", "5kg, 10kg, 25kg cartons/bags"),
     Spec("20ft Container", "~8,000 kg"),
     Spec("40ft Container", "~16,000 kg")],
    ["ISO 22000", "HACCP", "USDA Organic (Selected items)", "EU Organic (Selected items)"])

  const Cayenne: Product := Product(
    "cayenne-pepper",
    "Premium Cayenne Pepper",
    "Herbs & Spices",
    CayenneText,
    "@/assets/products/cayenne-pepper.jpeg",
    [Spec("SKU", "SP-CAY-P01"),
     Spec("Spice Type", "Cayenne Pepper (Ground)"),
     Spec("Grade", "Premium"),
     Spec("Origin", "Algeria"),
     Spec("Heat Level (SHU)", "30,000 - 50,000"),
     Spec("Processing", "Dried & Ground"),
     Spec("Mesh Size", "40-60 mesh"),
     Spec("Moisture Content", "≤ 10%"),
     Spec("Availability", "Year-round")],
    [Spec("Consumer Packaging", "50g, 100g, 250g, 500g bags/jars"),
     Spec("Bulk Packaging", "10kg, 25kg cartons"),
     Spec("20ft Container", "~10,000 kg"),
     Spec("40ft Container", "~20,000 kg")],
    ["ISO 22000", "HACCP", "ASTA Certified"])

  const CherryTomatoes: Product := Product(
    "fresh-tomatoes",
    "Cherry Tomatoes",
    "Fresh Produce",
    CherryTomatoesText,
    "@/assets/products/tomatoes.jpeg",
    [Spec("SKU", "FP-TOM-P01"),
     Spec("Variety", "Cherry Tomatoes"),
     Spec("Grade", "Class I"),
     Spec("Origin", "Algeria"),
     Spec("Cultivation", "Greenhouse & Open Field"),
     Spec("Size", "20-35mm diameter"),
     Spec("Brix Level", "6-8°"),
     Spec("Availability", "October - June")],
    [Spec("Consumer Packaging", "250g, 500g punnets"),
     Spec("Bulk Packaging", "5kg cartons"),
     Spec("20ft Container (Reefer)", "~18,000 kg"),
     Spec("40ft Container (Reefer)", "~24,000 kg")],
    ["GlobalGAP", "HACCP", "ISO 22000"])

  const Peanuts: Product := Product(
    "peanuts",
    "Premium Peanuts",
    "Nuts",
    PeanutsText,
    "@/assets/products/peanuts.jpeg",
    [Spec("SKU", "NT-PNT-P01"),
     Spec("Nut Type", "Peanuts (Groundnuts)"),
     Spec("Grade", "Premium Select"),
     Spec("Origin", "Algeria"),
     Spec("Processing", "Raw / Roasted / Blanched"),
     Spec("Size Count", "40/50, 50/60, 60/70 per oz"),
     Spec("Moisture Content", "≤ 7%"),
     Spec("Aflatoxin Level", "≤ 4 ppb (EU standards)"),
     Spec("Availability", "Year-round")],
    [Spec("Consumer Packaging", "250g, 500g, 1kg bags/tins"),
     Spec("Bulk Packaging", "25kg, 50kg vacuum bags"),
     Spec("20ft Container", "~18,000 kg"),
     Spec("40ft Container", "~25,000 kg")],
    ["ISO 22000", "HACCP", "BRC Food Safety", "Non-GMO"])


  /** `products`, in the order of its source. */
  const Products: seq<Product> := [DegletNour, OliveOil, HerbsSpices, Cayenne, CherryTomatoes, Peanuts]

  /** `Array.prototype.find` with `product.id === id`: the first product with
      that id, or nothing when none has it. */
  function Find(products: seq<Product>, id: string): (r: Option<Product>)
    ensures r.None? <==> forall k :: 0 <= k < |products| ==> products[k].id != id
    ensures r.Some? ==> r.value.id == id
    ensures r.Some? ==> exists k :: 0 <= k < |products| && products[k] == r.value &&
                                (forall j :: 0 <= j < k ==> products[j].id != id)
  {
    if products == [] then None
    else if products[0].id == id then Some(products[0])
    else
      var r := Find(products[1..], id);
      assert forall k :: 1 <= k < |products| ==> products[k] == products[1..][k - 1];
      r
  }

  /** `getProductById` */
  function GetProductById(id: string): Option<Product> {
    Find(Products, id)
  }

  /** No two products of the table share an id. */
  lemma DistinctIds()
    ensures forall i, j :: 0 <= i < j < |Products| ==> Products[i].id != Products[j].id
  {
  }

  /** So the lookup of a product's id finds that very product. */
  lemma LookupFindsEach()
    ensures forall k :: 0 <= k < |Products| ==> GetProductById(Products[k].id) == Some(Products[k])
  {
    DistinctIds();
  }

  /** Every product has specifications and packaging to show. */
  lemma ListsNonEmpty()
    ensures forall p :: p in Products ==> p.specifications != [] && p.packaging != []
  {
  }
}
