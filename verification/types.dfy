/** The shapes of src/types/index.ts that the core uses. */
module Types {
  import opened MetadataUtils

  /** `Language = 'en' | 'ar'`. */
  datatype Language = En | Ar

  /** The five inputs of the report form, by their `name` attribute. */
  datatype Field = Name | Email | Site | Department | Message

  /** `FormData`: the text of each form input. */
  datatype FormData = FormData(name: string, email: string, site: string, department: string, message: string)
  {
    /** The value of one input. */
    function Get(field: Field): string
    {
      match field
      case Name => name
      case Email => email
      case Site => site
      case Department => department
      case Message => message
    }

    /** `{...formData, [field]: value}`. */
    function With(field: Field, value: string): (r: FormData)
      ensures r.Get(field) == value
      ensures forall other :: other != field ==> r.Get(other) == Get(other)
    {
      match field
      case Name => this.(name := value)
      case Email => this.(email := value)
      case Site => this.(site := value)
      case Department => this.(department := value)
      case Message => this.(message := value)
    }
  }

  /** The initial form, and the form after a successful submission. */
  const EmptyForm: FormData := FormData("", "", "", "", "")

  /** `Attachment`: one staged file. `size` and `mediaType` are copied from
      the file the user selected; `file` is its sanitized copy. */
  datatype Attachment = Attachment(id: string, name: string, size: nat, mediaType: string, file: File)
}
