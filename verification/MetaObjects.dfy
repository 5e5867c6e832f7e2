/** Meta classes and meta fields as objects. */
module MetaObjects {
  import opened Wrappers
  import opened Meta
  import opened MetaRecords

  class MetaField {
    const id: string
    const code: string
    const kind: FieldType
    const owner: MetaClass?
    const linkToMetaClass: MetaClass?
    const backReferenceField: MetaField?

    constructor (r: FieldRecord, owner: MetaClass?, linkToMetaClass: MetaClass?, backReferenceField: MetaField?)
      ensures IsRecord(this, r)
      ensures this.owner == owner && this.linkToMetaClass == linkToMetaClass
      ensures this.backReferenceField == backReferenceField
    {
      id, code, kind := r.id, r.code, r.kind;
      this.owner, this.linkToMetaClass, this.backReferenceField := owner, linkToMetaClass, backReferenceField;
    }
  }

  predicate IsRecord(f: MetaField, r: FieldRecord) {
    f.id == r.id && f.code == r.code && f.kind == r.kind
  }

  function LastByCode(fields: seq<MetaField>, code: string): MetaField? {
    if fields == [] then null
    else if fields[|fields| - 1].code == code then fields[|fields| - 1]
    else LastByCode(fields[..|fields| - 1], code)
  }

  function FirstById(fields: seq<MetaField>, id: string): MetaField? {
    if fields == [] then null
    else if fields[0].id == id then fields[0]
    else FirstById(fields[1..], id)
  }

  class MetaClass {
    const id: string
    const code: string
    const table: string
    var fields: seq<MetaField>
    var fieldByCode: map<string, MetaField>

    /** The by-code map holds, for every code, the last field added with it. */
    ghost predicate InStep()
      reads this
    {
      forall code :: GetField(code) == LastByCode(fields, code)
    }

    function GetField(code: string): MetaField?
      reads this
    {
      if code in fieldByCode then fieldByCode[code] else null
    }

    constructor (r: ClassRecord)
      ensures id == r.id && code == r.code && table == r.table
      ensures fields == [] && InStep()
    {
      id, code, table := r.id, r.code, r.table;
      fields, fieldByCode := [], map[];
    }

    method AddField(field: MetaField)
      requires InStep()
      modifies this
      ensures fields == old(fields) + [field] && InStep()
    {
      fields := fields + [field];
      fieldByCode := fieldByCode[field.code := field];
      assert fields[..|fields| - 1] == old(fields);
    }
  }
}
