/** Where the two drivers store different property rows for the same event. */
module DriverLaws {
  import opened Encoding
  import opened Options
  import opened Schema
  import opened Tracking
  import opened TrackLaws

  /** The text is longer than a stored text may be, and the limit falls inside a character. */
  predicate CutsCharacter(text: string) {
    |text| > MAX_STRING_VALUE_LEN && IsContinuation(text[MAX_STRING_VALUE_LEN])
  }

  /** A clipped text can be stored by Postgres exactly when the limit does not cut a character. */
  lemma ClippedIff(text: string)
    requires StorableText(Postgres, text)
    ensures StorableText(Postgres, Clip(text)) <==> !CutsCharacter(text)
  {
    if |text| > MAX_STRING_VALUE_LEN {
      CutStorableIff(text, MAX_STRING_VALUE_LEN);
    }
  }

  predicate HasText(pv: PropertyValue) {
    pv.valueType == StringType && pv.value.JString?
  }

  /** A row is made for the key. */
  predicate Kept(properties: map<string, PropertyValue>, key: string) {
    key in properties && |key| <= MAX_KEY_LEN
  }

  /** Before they are clipped, the texts that reach the database are UTF-8 without a zero byte. */
  ghost predicate ValidTexts(properties: map<string, PropertyValue>) {
    forall key | Kept(properties, key) ::
      StorableText(Postgres, key)
      && (HasText(properties[key]) ==> StorableText(Postgres, properties[key].value.text))
  }

  ghost predicate SomeCut(properties: map<string, PropertyValue>) {
    exists key :: Kept(properties, key) && HasText(properties[key]) && CutsCharacter(properties[key].value.text)
  }

  lemma StorableRowIff(key: string, pv: PropertyValue)
    requires StorableText(Postgres, key) && (HasText(pv) ==> StorableText(Postgres, pv.value.text))
    ensures StorableRow(Postgres, PropertyRow(key, pv))
            <==> ValidType(pv.valueType) && !(HasText(pv) && CutsCharacter(pv.value.text))
    ensures StorableRow(Sqlite, PropertyRow(key, pv)) <==> ValidType(pv.valueType)
  {
    hide CutsCharacter;
    hide Clip;
    if HasText(pv) {
      ClippedIff(pv.value.text);
    }
  }

  lemma StorableRowsIff(driver: Driver, properties: map<string, PropertyValue>)
    ensures StorableRows(driver, PropertyBag(properties)) <==>
            forall key | Kept(properties, key) :: StorableRow(driver, PropertyRow(key, properties[key]))
  {
    hide StorableRow;
    hide PropertyRow;
    var rows := PropertyRows(properties);
    forall key | Kept(properties, key) ensures PropertyRow(key, properties[key]) in PropertyBag(properties) {
      assert PropertyRow(key, properties[key]) in rows;
    }
  }

  /** For texts that both drivers take as they are, the drivers store the same rows exactly when no text
      is cut inside a character or a type is refused anyway.  When one is cut, Postgres refuses the whole
      transaction. */
  lemma DriversStoreAlikeIff(properties: map<string, PropertyValue>)
    requires ValidTexts(properties)
    ensures StoredRows(Postgres, properties) == StoredRows(Sqlite, properties)
            <==> StoredRows(Sqlite, properties) == multiset{} || !SomeCut(properties)
    ensures SomeCut(properties) ==> StoredRows(Postgres, properties) == multiset{}
  {
    hide PropertyRow;
    hide PropertyBag;
    hide StorableRow;
    hide StorableRows;
    hide StorableText;
    hide CutsCharacter;
    StorableRowsIff(Postgres, properties);
    StorableRowsIff(Sqlite, properties);
    forall key | Kept(properties, key)
      ensures StorableRow(Sqlite, PropertyRow(key, properties[key])) <==> ValidType(properties[key].valueType)
      ensures StorableRow(Postgres, PropertyRow(key, properties[key])) <==>
              ValidType(properties[key].valueType)
              && !(HasText(properties[key]) && CutsCharacter(properties[key].value.text))
    {
      StorableRowIff(key, properties[key]);
    }
  }

  /** So on Postgres an event with such a text is counted and stored without any of its rows, although
      nothing failed that a retry could mend. */
  lemma CutTextLosesRows(p: Progress, ctx: Context, ev: TrackEvent, fate: Fate)
    requires p.db.driver == Postgres && Resolves(p.db, ctx) && CandidateKey(Postgres, ev) == Some(ev.id)
    requires ev.id !in p.db.events && ev.id !in p.db.properties
    requires !fate.insertFails && !fate.propertiesFail
    requires ValidTexts(ev.properties) && SomeCut(ev.properties)
    ensures var after := TrackOne(p, ctx, ev, fate);
            && after.accepted == p.accepted + 1
            && ev.id in after.db.events && RowsOf(after.db, ev.id) == multiset{}
  {
    hide StorableText;
    hide ValidTexts;
    hide SomeCut;
    hide StorableRows;
    hide PropertyBag;
    hide WellFormed;
    DriversStoreAlikeIff(ev.properties);
  }
}
