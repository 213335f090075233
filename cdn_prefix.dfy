/** The `CdnPrefix` entity: one configured CDN URL prefix. */
module CdnPrefixEntity {
  import opened Base

  /** The values of a CdnPrefix's fields other than its id; isDefault may be null. */
  datatype PrefixRecord = PrefixRecord(
    name: string,
    prefix: string,
    description: string,
    isDefault: Option<bool>,
    isActive: bool,
    createTime: Time,
    updateTime: Time)

  class CdnPrefix {
    var id: Option<int>
    var name: string
    var prefix: string
    var description: string
    var isDefault: Option<bool>
    var isActive: bool
    var createTime: Time
    var updateTime: Time

    /**
     * The five-argument constructor: name, prefix, description and isDefault
     * are copied unchanged (isDefault may stay null); a null isActive becomes
     * true. The two timestamps are two separate clock readings, and the id
     * stays unset until the catalog insert assigns one.
     */
    constructor (name: string, prefix: string, description: string, isDefault: Option<bool>,
                 isActive: Option<bool>, created: Time, updated: Time)
      ensures id == None
      ensures this.name == name && this.prefix == prefix && this.description == description
      ensures this.isDefault == isDefault
      ensures this.isActive == (isActive == None || isActive == Some(true))
      ensures createTime == created && updateTime == updated
    {
      id := None;
      this.name := name;
      this.prefix := prefix;
      this.description := description;
      this.isDefault := isDefault;
      this.isActive := if isActive.Some? then isActive.value else true;
      createTime := created;
      updateTime := updated;
    }

    function Record(): PrefixRecord
      reads this
    {
      PrefixRecord(name, prefix, description, isDefault, isActive, createTime, updateTime)
    }

    method SetId(id: Option<int>)
      modifies this`id
      ensures this.id == id && Record() == old(Record())
    {
      this.id := id;
    }

    method SetName(name: string)
      modifies this`name
      ensures Record() == old(Record()).(name := name)
    {
      this.name := name;
    }

    method SetPrefix(prefix: string)
      modifies this`prefix
      ensures Record() == old(Record()).(prefix := prefix)
    {
      this.prefix := prefix;
    }

    method SetDescription(description: string)
      modifies this`description
      ensures Record() == old(Record()).(description := description)
    {
      this.description := description;
    }

    method SetIsDefault(isDefault: Option<bool>)
      modifies this`isDefault
      ensures Record() == old(Record()).(isDefault := isDefault)
    {
      this.isDefault := isDefault;
    }

    method SetIsActive(isActive: bool)
      modifies this`isActive
      ensures Record() == old(Record()).(isActive := isActive)
    {
      this.isActive := isActive;
    }

    method SetCreateTime(createTime: Time)
      modifies this`createTime
      ensures Record() == old(Record()).(createTime := createTime)
    {
      this.createTime := createTime;
    }

    method SetUpdateTime(updateTime: Time)
      modifies this`updateTime
      ensures Record() == old(Record()).(updateTime := updateTime)
    {
      this.updateTime := updateTime;
    }
  }
}
