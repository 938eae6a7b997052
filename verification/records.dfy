/** The records the catalog API returns and the shapes the application
    displays. Only the fields the transforms read or copy are kept; `price`
    is the API's number as the text a template literal gives it. */
module Records {
  import opened Wrappers

  datatype RawProduct = RawProduct(
    id: int, title: string, description: string, price: string,
    category: string, tags: Option<seq<string>>, rating: real, thumbnail: string)

  datatype Product = Product(
    id: int, name: string, description: string, price: string,
    category: string, features: seq<string>, popular: bool, image: string)

  datatype Address = Address(country: Option<string>, other: map<string, string>)

  datatype Company = Company(department: Option<string>, other: map<string, string>)

  datatype RawUser = RawUser(
    id: int, firstName: string, lastName: string, email: string, age: int,
    gender: string, address: Option<Address>, company: Option<Company>, role: string)

  datatype User = User(
    id: int, firstName: string, lastName: string, name: string, email: string,
    age: int, gender: string, address: Option<Address>, company: Option<Company>,
    role: string, country: string, program: string, status: string)
}
