/** The language context of the React client: three fixed translation
    tables, the lookup `t` with its fall-back to the key, and the state that
    `setLanguage` and the mount effect keep in step (the language, the value
    saved in local storage and the document's `dir` and `lang` attributes).

    The tables are `Record<string, string>` values with the same 23 keys; here
    the keys are the constructors of `Key`, `KeyOf` finds the key a string
    names, and a table is a total function on `Key`, so the three tables have
    the same keys by construction. */
module LanguageContext {
  import opened Base

  /** The keys of the translation tables. */
  datatype Key =
    | NavHome
    | NavAbout
    | NavProducts
    | NavQuality
    | NavContact
    | HomeHeroTitle
    | HomeHeroSubtitle
    | HomeHeroDescription
    | HomeHeroCta
    | HomeFeaturedTitle
    | HomeAboutTitle
    | HomeAboutDescription
    | ContactTitle
    | ContactName
    | ContactCompany
    | ContactEmail
    | ContactPhone
    | ContactCountry
    | ContactMessage
    | ContactSubmit
    | ProductsAll
    | ProductsCategory
    | ProductsViewDetails

  /** The key a string names, if any. */
  function KeyOf(s: string): Option<Key> {
    if s == "nav.home" then Some(NavHome)
    else if s == "nav.about" then Some(NavAbout)
    else if s == "nav.products" then Some(NavProducts)
    else if s == "nav.quality" then Some(NavQuality)
    else if s == "nav.contact" then Some(NavContact)
    else if s == "home.hero.title" then Some(HomeHeroTitle)
    else if s == "home.hero.subtitle" then Some(HomeHeroSubtitle)
    else if s == "home.hero.description" then Some(HomeHeroDescription)
    else if s == "home.hero.cta" then Some(HomeHeroCta)
    else if s == "home.featured.title" then Some(HomeFeaturedTitle)
    else if s == "home.about.title" then Some(HomeAboutTitle)
    else if s == "home.about.description" then Some(HomeAboutDescription)
    else if s == "contact.title" then Some(ContactTitle)
    else if s == "contact.name" then Some(ContactName)
    else if s == "contact.company" then Some(ContactCompany)
    else if s == "contact.email" then Some(ContactEmail)
    else if s == "contact.phone" then Some(ContactPhone)
    else if s == "contact.country" then Some(ContactCountry)
    else if s == "contact.message" then Some(ContactMessage)
    else if s == "contact.submit" then Some(ContactSubmit)
    else if s == "products.all" then Some(ProductsAll)
    else if s == "products.category" then Some(ProductsCategory)
    else if s == "products.viewDetails" then Some(ProductsViewDetails)
    else None
  }

  /** The English table. */
  function EnText(k: Key): string {
    match k
    case NavHome => "Home"
    case NavAbout => "About"
    case NavProducts => "Products"
    case NavQuality => "Quality"
    case NavContact => "Contact"
    case HomeHeroTitle => "Premium Algerian Products"
    case HomeHeroSubtitle => "Exporting Excellence Since 1998"
    case HomeHeroDescription => "Discover our premium selection of dates, olive oil, and traditional spices from Algeria"
    case HomeHeroCta => "Explore Products"
    case HomeFeaturedTitle => "Featured Products"
    case HomeAboutTitle => "About 1000 Coupole Export"
    case HomeAboutDescription => "We are a leading exporter of premium Algerian products, committed to delivering excellence in every shipment."
    case ContactTitle => "Contact Us"
    case ContactName => "Full Name"
    case ContactCompany => "Company Name"
    case ContactEmail => "Email Address"
    case ContactPhone => "Phone Number"
    case ContactCountry => "Country"
    case ContactMessage => "Message"
    case ContactSubmit => "Send Message"
    case ProductsAll => "All Products"
    case ProductsCategory => "Category"
    case ProductsViewDetails => "View Details"
  }

  /** The French table. */
  function FrText(k: Key): string {
    match k
    case NavHome => "Accueil"
    case NavAbout => "À Propos"
    case NavProducts => "Produits"
    case NavQuality => "Qualité"
    case NavContact => "Contact"
    case HomeHeroTitle => "Produits Algériens de Qualité"
    case HomeHeroSubtitle => "Excellence d'Exportation Depuis 1998"
    case HomeHeroDescription => "Découvrez notre sélection premium de dattes, huile d'olive et épices traditionnelles d'Algérie"
    case HomeHeroCta => "Explorer les Produits"
    case HomeFeaturedTitle => "Produits Vedettes"
    case HomeAboutTitle => "À Propos de 1000 Coupole Export"
    case HomeAboutDescription => "Nous sommes un exportateur leader de produits algériens de qualité, engagés à offrir l'excellence dans chaque envoi."
    case ContactTitle => "Nous Contacter"
    case ContactName => "Nom Complet"
    case ContactCompany => "Nom de l'Entreprise"
    case ContactEmail => "Adresse Email"
    case ContactPhone => "Numéro de Téléphone"
    case ContactCountry => "Pays"
    case ContactMessage => "Message"
    case ContactSubmit => "Envoyer le Message"
    case ProductsAll => "Tous les Produits"
    case ProductsCategory => "Catégorie"
    case ProductsViewDetails => "Voir les Détails"
  }

  /** The Arabic table. */
  function ArText(k: Key): string {
    match k
    case NavHome => "الرئيسية"
    case NavAbout => "من نحن"
    case NavProducts => "المنتجات"
    case NavQuality => "الجودة"
    case NavContact => "اتصل بنا"
    case HomeHeroTitle => "منتجات جزائرية فاخرة"
    case HomeHeroSubtitle => "التميز في التصدير منذ 1998"
    case HomeHeroDescription => "اكتشف مجموعتنا المميزة من التمور وزيت الزيتون والتوابل التقليدية من الجزائر"
    case HomeHeroCta => "استكشف المنتجات"
    case HomeFeaturedTitle => "المنتجات المميزة"
    case HomeAboutTitle => "حول 1000 قبة للتصدير"
    case HomeAboutDescription => "نحن مصدر رائد للمنتجات الجزائرية الممتازة، ملتزمون بتقديم التميز في كل شحنة."
    case ContactTitle => "اتصل بنا"
    case ContactName => "الاسم الكامل"
    case ContactCompany => "اسم الشركة"
    case ContactEmail => "البريد الإلكتروني"
    case ContactPhone => "رقم الهاتف"
    case ContactCountry => "الدولة"
    case ContactMessage => "الرسالة"
    case ContactSubmit => "إرسال الرسالة"
    case ProductsAll => "جميع المنتجات"
    case ProductsCategory => "الفئة"
    case ProductsViewDetails => "عرض التفاصيل"
  }
  /** `translations[language]` */
  function Text(l: Locale, k: Key): string {
    match l
    case En => EnText(k)
    case Fr => FrText(k)
    case Ar => ArText(k)
  }

  /** `translations[language][key] || key`: an entry that is missing or empty
      falls back to the key itself. */
  function Translate(l: Locale, key: string): (r: string)
    ensures KeyOf(key).Some? && Text(l, KeyOf(key).value) != "" ==> r == Text(l, KeyOf(key).value)
    ensures KeyOf(key).None? || Text(l, KeyOf(key).value) == "" ==> r == key
    ensures r == key || r == Text(l, KeyOf(key).value)
  {
    match KeyOf(key)
    case None => key
    case Some(k) => if Text(l, k) != "" then Text(l, k) else key
  }


  /** A string that names no key reads the same in every language: itself. */
  lemma UnknownKeyEverywhere(l: Locale, m: Locale, s: string)
    requires KeyOf(s).None?
    ensures Translate(l, s) == Translate(m, s) == s
  {
  }

  /** `document.documentElement.dir` for a language. */
  function DirOf(l: Locale): (d: string)
    ensures d == "rtl" <==> l == Ar
    ensures d == "ltr" <==> l != Ar
  {
    if l == Ar then "rtl" else "ltr"
  }

  /** `savedLang && ['en', 'fr', 'ar'].includes(savedLang)`: the saved value,
      when it is one of the three codes. */
  function SavedLanguage(saved: Option<string>): (r: Option<Locale>)
    ensures r.Some? <==> saved.Some? && saved.value in ["en", "fr", "ar"]
    ensures r.Some? ==> CodeOf(r.value) == saved.value
  {
    if saved.Some? && saved.value != "" && saved.value in ["en", "fr", "ar"] then LocaleOf(saved.value)
    else None
  }

  /** What a reload makes of the value `setLanguage` saves: the same language. */
  lemma SavedRoundTrip(l: Locale)
    ensures SavedLanguage(Some(CodeOf(l))) == Some(l)
  {
    LocaleCodeRoundTrip(l);
  }

  /** The provider's state. `saved` is the `language` entry of local storage;
      `dir` and `docLang` are the document element's attributes. */
  class LanguageState {
    var language: Locale
    var saved: Option<string>
    var dir: string
    var docLang: string

    /** `useState('en')`, with whatever local storage and the document hold. */
    constructor (saved: Option<string>, dir: string, docLang: string)
      ensures language == En && this.saved == saved && this.dir == dir && this.docLang == docLang
    {
      language := En;
      this.saved := saved;
      this.dir := dir;
      this.docLang := docLang;
    }

    /** The document shows the current language. */
    predicate InStep()
      reads this
    {
      dir == DirOf(language) && docLang == CodeOf(language)
    }

    /** `t` */
    function T(key: string): (r: string)
      reads this
      ensures r == Translate(language, key)
    {
      Translate(language, key)
    }

    /** The mount effect: a valid saved language is applied together with the
        document attributes; anything else leaves the state as it was. */
    method Mount()
      modifies this
      ensures saved == old(saved)
      ensures SavedLanguage(saved).Some? ==> language == SavedLanguage(saved).value && InStep()
      ensures SavedLanguage(saved).None? ==>
        language == old(language) && dir == old(dir) && docLang == old(docLang)
    {
      var l := SavedLanguage(saved);
      if l.Some? {
        language := l.value;
        dir := DirOf(l.value);
        docLang := CodeOf(l.value);
      }
    }

    /** `setLanguage` */
    method SetLanguage(l: Locale)
      modifies this
      ensures language == l && saved == Some(CodeOf(l))
      ensures dir == DirOf(l) && docLang == CodeOf(l)
    {
      language := l;
      saved := Some(CodeOf(l));
      dir := DirOf(l);
      docLang := CodeOf(l);
    }
  }

  /** A language chosen with `setLanguage` survives a reload: a new provider
      over the same storage comes back in that language, in step with the
      document. */
  method Reload(s: LanguageState, l: Locale, dir: string, docLang: string) returns (reloaded: LanguageState)
    modifies s
    ensures reloaded.language == l && reloaded.InStep()
  {
    s.SetLanguage(l);
    reloaded := new LanguageState(s.saved, dir, docLang);
    SavedRoundTrip(l);
    reloaded.Mount();
  }
}
